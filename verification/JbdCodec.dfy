/** The JBD frame printer and parser: header, payload, 16-bit checksum, end byte. */
module JbdCodec {
  import opened Prelude

  const START: Byte := 0xDD
  const END: Byte := 0x77

  datatype JbdError = NotAFrame | LengthMismatch | BadChecksum | BadStatus(status: Byte) | OddPayload | Unprintable

  datatype Reply = Reply(cmd: Byte, status: Byte, payload: seq<Byte>)

  function Sum(bytes: seq<Byte>): nat {
    if bytes == [] then 0 else bytes[0] + Sum(bytes[1..])
  }

  /** 0x10000 minus (status + length + payload bytes), kept to 16 bits. */
  function Checksum(status: int, length: nat, payload: seq<Byte>): (ck: int)
    ensures 0 <= ck < 0x10000
  {
    (0x10000 - (status + length + Sum(payload))) % 0x10000
  }

  /** A response frame; a payload that does not fit the one-byte length cannot be printed. */
  function BuildResponse(cmd: int, payload: seq<Byte>, status: int): Result<seq<Byte>, JbdError> {
    if |payload| > 255 then Err(Unprintable)
    else
      var ck := Checksum(status, |payload|, payload);
      Ok([START, cmd % 256, status % 256, |payload|] + payload + [ck / 256, ck % 256, END])
  }

  /** The payload length a header announces. */
  function Announced(raw: seq<Byte>): nat
    requires |raw| >= 4
  {
    raw[3] as int
  }

  function ParseFrame(raw: seq<Byte>): Result<Reply, JbdError> {
    if |raw| < 7 || raw[0] != START || raw[|raw| - 1] != END then Err(NotAFrame)
    else if |raw| != 4 + Announced(raw) + 3 then Err(LengthMismatch)
    else
      var payload := raw[4..4 + Announced(raw)];
      if U16(raw, |raw| - 3) != Checksum(raw[2], Announced(raw), payload) then Err(BadChecksum)
      else if raw[2] != 0 then Err(BadStatus(raw[2]))
      else Ok(Reply(raw[1], raw[2], payload))
  }

  lemma {:induction false} SumAppend(a: seq<Byte>, b: seq<Byte>)
    ensures Sum(a + b) == Sum(a) + Sum(b)
  {
    if a == [] {
      assert a + b == b;
    } else {
      SumAppend(a[1..], b);
      assert (a + b)[1..] == a[1..] + b;
    }
  }

  lemma {:induction false} SumBound(a: seq<Byte>)
    ensures Sum(a) <= 255 * |a|
  {
    if a != [] {
      SumBound(a[1..]);
    }
  }

  /** The complement modulo 16 bits of a sum that fits 16 bits. */
  lemma ComplementOf(sum: nat)
    requires sum < 0x10000
    ensures (0x10000 - sum) % 0x10000 == if sum == 0 then 0 else 0x10000 - sum
  {
  }

  /** Status, length and payload of a frame never add up past 16 bits, so the checksum cannot alias. */
  lemma {:induction false} ChecksumNeverAliases(status: Byte, payload: seq<Byte>, status': Byte, payload': seq<Byte>)
    requires |payload| == |payload'| <= 255
    ensures Checksum(status, |payload|, payload) == Checksum(status', |payload'|, payload') <==>
            status + Sum(payload) == status' + Sum(payload')
  {
    SumBound(payload);
    SumBound(payload');
    ComplementOf(status + |payload| + Sum(payload));
    ComplementOf(status' + |payload| + Sum(payload'));
  }

  // ---------- the law on bytes ----------

  /** The sum of bytes, from its three laws alone. */
  lemma {:induction false} SumLaws(a: seq<Byte>, b: seq<Byte>, x: Byte)
    ensures Sum([]) == 0 && Sum([x]) == x && Sum(a + b) == Sum(a) + Sum(b)
  {
    SumAppend(a, b);
    assert [x][1..] == [];
  }

  /** Status, length and payload bytes and the big-endian word before the end byte add up to nothing in 16 bits. */
  ghost predicate AddsToZero(raw: seq<Byte>)
    requires |raw| >= 7
  {
    (Sum(raw[2..|raw| - 3]) + 256 * (raw[|raw| - 3] as int) + raw[|raw| - 2] as int) % 0x10000 == 0
  }

  /** Start and end byte in place, and as many bytes as the length byte says. */
  ghost predicate Framed(raw: seq<Byte>) {
    |raw| >= 7 && raw[0] == 0xDD && raw[|raw| - 1] == 0x77 && |raw| == 7 + raw[3] as int
  }

  lemma Complements(sum: nat, ck: nat)
    requires sum < 0x10000 && ck < 0x10000
    ensures ck == (0x10000 - sum) % 0x10000 <==> (sum + ck) % 0x10000 == 0
  {
    ComplementOf(sum);
  }

  /** The bytes a checksum is over: status, length, payload. */
  lemma CheckedBytes(raw: seq<Byte>)
    requires Framed(raw)
    ensures var payload := raw[4..|raw| - 3];
            && Sum(raw[2..|raw| - 3]) == raw[2] + raw[3] + Sum(payload) < 0x10000
            && |payload| == raw[3]
  {
    var payload := raw[4..|raw| - 3];
    assert raw[2..|raw| - 3] == [raw[2]] + ([raw[3]] + payload);
    SumLaws([raw[2]], [raw[3]] + payload, raw[2]);
    SumLaws([raw[3]], payload, raw[3]);
    SumBound(payload);
  }

  lemma ChecksumFits(raw: seq<Byte>)
    requires Framed(raw)
    ensures U16(raw, |raw| - 3) == Checksum(raw[2], raw[3], raw[4..|raw| - 3]) <==> AddsToZero(raw)
  {
    CheckedBytes(raw);
    Complements(Sum(raw[2..|raw| - 3]), U16(raw, |raw| - 3));
  }

  /**
   * The parser told from bytes alone: it accepts a frame if and only if both markers and the length
   * are right, the bytes add up to nothing, and the status is zero; and then it returns the second
   * byte as the command and the bytes between header and trailer.
   */
  lemma AcceptedExactly(raw: seq<Byte>)
    ensures ParseFrame(raw).Ok? <==> Framed(raw) && AddsToZero(raw) && raw[2] == 0
    ensures ParseFrame(raw).Ok? ==> ParseFrame(raw).value == Reply(raw[1], 0, raw[4..|raw| - 3])
    ensures ParseFrame(raw) == Err(BadChecksum) <==> Framed(raw) && !AddsToZero(raw)
  {
    if Framed(raw) {
      ChecksumFits(raw);
    }
  }

  lemma Residues(ck: int, rest: int, sum: int)
    requires ck == (0x10000 - rest) % 0x10000
    ensures (sum + ck) % 0x10000 == (sum - rest) % 0x10000
  {
  }

  /**
   * Every frame the printer makes has its markers and its length, and its bytes add up to nothing if
   * and only if the status loses nothing but multiples of 2^16 when it is cut to its byte: for every
   * status that is a byte, then.
   */
  lemma PrintedAddsToZero(cmd: int, payload: seq<Byte>, status: int)
    requires |payload| <= 255
    ensures var raw := BuildResponse(cmd, payload, status).value;
            && Framed(raw) && raw[1] == cmd % 256 && raw[2] == status % 256 && raw[4..|raw| - 3] == payload
            && (AddsToZero(raw) <==> (status % 256 - status) % 0x10000 == 0)
    ensures 0 <= status < 256 ==> AddsToZero(BuildResponse(cmd, payload, status).value)
  {
    var raw := BuildResponse(cmd, payload, status).value;
    var ck := Checksum(status, |payload|, payload);
    assert raw[4..|raw| - 3] == payload;
    CheckedBytes(raw);
    assert U16(raw, |raw| - 3) == ck;
    Residues(ck, status + |payload| + Sum(payload), Sum(raw[2..|raw| - 3]));
  }

  /** A status of 256 is printed as a zero byte but summed as 256: the parser refuses the frame. */
  lemma WideStatusExample(cmd: int)
    ensures ParseFrame(BuildResponse(cmd, [], 256).value) == Err(BadChecksum)
  {
    PrintedAddsToZero(cmd, [], 256);
    AcceptedExactly(BuildResponse(cmd, [], 256).value);
  }

  /** An ordinary reply: one register holding 1, whose sum is 3 and whose checksum word is 0xFFFD. */
  lemma OrdinaryReply()
    ensures ParseFrame([0xDD, 0x03, 0x00, 0x02, 0x00, 0x01, 0xFF, 0xFD, 0x77]) == Ok(Reply(3, 0, [0, 1]))
  {
    var raw: seq<Byte> := [0xDD, 0x03, 0x00, 0x02, 0x00, 0x01, 0xFF, 0xFD, 0x77];
    assert raw[4..|raw| - 3] == [0, 1];
    assert [0, 1][1..] == [1] && [1][1..] == [];
    CheckedBytes(raw);
    AcceptedExactly(raw);
  }

  /** Printing then parsing recovers command and payload; a non-zero status is reported as such. */
  lemma ParseAfterBuild(cmd: Byte, payload: seq<Byte>, status: Byte)
    requires |payload| <= 255
    ensures ParseFrame(BuildResponse(cmd, payload, status).value) ==
            if status == 0 then Ok(Reply(cmd, 0, payload)) else Err(BadStatus(status))
  {
    var raw := BuildResponse(cmd, payload, status).value;
    assert raw[4..4 + Announced(raw)] == payload;
  }

  /** The parser accepts only what the printer prints, and returns what was printed. */
  lemma BuildAfterParse(raw: seq<Byte>)
    requires ParseFrame(raw).Ok?
    ensures var reply := ParseFrame(raw).value;
            |reply.payload| <= 255 && reply.status == 0 && BuildResponse(reply.cmd, reply.payload, 0) == Ok(raw)
  {
    var payload := raw[4..4 + Announced(raw)];
    var ck := Checksum(raw[2], Announced(raw), payload);
    assert ck / 256 == raw[|raw| - 3] && ck % 256 == raw[|raw| - 2];
    assert raw == raw[..4] + payload + raw[4 + Announced(raw)..];
    assert raw[4 + Announced(raw)..] == [ck / 256, ck % 256, END];
    assert raw[..4] == [START, raw[1], 0, |payload|];
  }

  /** Parser and printer are exact inverses on status-0 frames with at most 255 payload bytes. */
  lemma ParsesExactlyThePrinted(raw: seq<Byte>)
    ensures ParseFrame(raw).Ok? <==>
            exists cmd: Byte, payload: seq<Byte> :: BuildResponse(cmd, payload, 0) == Ok(raw)
  {
    if ParseFrame(raw).Ok? {
      BuildAfterParse(raw);
    }
    if cmd: Byte, payload: seq<Byte> :| BuildResponse(cmd, payload, 0) == Ok(raw) {
      ParseAfterBuild(cmd, payload, 0);
    }
  }

  /**
   * What the checksum can and cannot see: with the header and trailer of a valid frame kept,
   * another payload of the same length is accepted exactly when its bytes add up to the same sum.
   */
  lemma {:induction false} PayloadSwapDetected(cmd: Byte, payload: seq<Byte>, other: seq<Byte>)
    requires |payload| == |other| <= 255
    ensures var raw := BuildResponse(cmd, payload, 0).value;
            ParseFrame(raw[..4] + other + raw[4 + |payload|..]).Ok? <==> Sum(other) == Sum(payload)
  {
    var raw := BuildResponse(cmd, payload, 0).value;
    var swapped := raw[..4] + other + raw[4 + |payload|..];
    assert swapped[4..4 + Announced(swapped)] == other;
    ChecksumNeverAliases(0, payload, 0, other);
  }

  lemma SumUpdate(a: seq<Byte>, i: nat, b: Byte)
    requires i < |a|
    ensures Sum(a[i := b]) == Sum(a) - a[i] + b
  {
    assert a == a[..i] + [a[i]] + a[i + 1..];
    assert a[i := b] == a[..i] + [b] + a[i + 1..];
    SumAppend(a[..i] + [a[i]], a[i + 1..]);
    SumAppend(a[..i], [a[i]]);
    SumAppend(a[..i] + [b], a[i + 1..]);
    SumAppend(a[..i], [b]);
  }

  /** Every one-byte corruption of an accepted frame is rejected, except one of the command byte. */
  lemma OneByteCorruption(raw: seq<Byte>, i: nat, b: Byte)
    requires ParseFrame(raw).Ok? && i < |raw| && b != raw[i]
    ensures ParseFrame(raw[i := b]).Ok? <==> i == 1
  {
    var bad, n := raw[i := b], Announced(raw);
    var payload := raw[4..4 + n];
    if i == 0 || i == 3 || i == |raw| - 1 {
      assert ParseFrame(bad).Err?;
    } else {
      var payload' := bad[4..4 + n];
      if 4 <= i < 4 + n {
        SumUpdate(payload, i - 4, b);
        assert payload' == payload[i - 4 := b];
      } else {
        assert payload' == payload;
      }
      ChecksumNeverAliases(raw[2], payload, bad[2], payload');
    }
  }

  // ---------- register fields ----------

  function U16(payload: seq<Byte>, offset: nat): (v: int)
    requires offset + 1 < |payload|
    ensures 0 <= v < 0x10000
  {
    (payload[offset] as int) * 256 + payload[offset + 1] as int
  }

  function S16(payload: seq<Byte>, offset: nat): (v: int)
    requires offset + 1 < |payload|
    ensures -0x8000 <= v < 0x8000
    ensures v % 0x10000 == U16(payload, offset)
  {
    var v := U16(payload, offset);
    if v >= 0x8000 then v - 0x10000 else v
  }

  function ParseCellVoltages(payload: seq<Byte>): Result<seq<int>, JbdError> {
    if |payload| % 2 != 0 then Err(OddPayload)
    else Ok(seq(|payload| / 2, i requires 0 <= i < |payload| / 2 => U16(payload, 2 * i)))
  }

  ghost predicate Registers(cells: seq<int>) {
    forall i | 0 <= i < |cells| :: 0 <= cells[i] < 0x10000
  }

  /** Big-endian registers, one per cell. */
  ghost function CellBytes(cells: seq<int>): (payload: seq<Byte>)
    requires Registers(cells)
    ensures |payload| == 2 * |cells|
  {
    if cells == [] then [] else [cells[0] / 256, cells[0] % 256] + CellBytes(cells[1..])
  }

  lemma {:induction false} CellBytesAt(cells: seq<int>, i: nat)
    requires Registers(cells) && i < |cells|
    ensures U16(CellBytes(cells), 2 * i) == cells[i]
  {
    if i > 0 {
      CellBytesAt(cells[1..], i - 1);
    }
  }

  /** Cell voltages survive the wire: every list of 16-bit registers is read back unchanged. */
  lemma CellsRoundTrip(cells: seq<int>)
    requires Registers(cells)
    ensures ParseCellVoltages(CellBytes(cells)) == Ok(cells)
  {
    forall i | 0 <= i < |cells| ensures U16(CellBytes(cells), 2 * i) == cells[i] {
      CellBytesAt(cells, i);
    }
    assert ParseCellVoltages(CellBytes(cells)).value == cells;
  }
}
