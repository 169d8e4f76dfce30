/** The protobuf wire scanner that recovers fixed32 fields the vendored schema does not declare. */
module ProtoWire {
  import opened Prelude

  /** A varint is at most ten bytes, seven value bits in each. */
  const MAX_VARINT_BYTES: nat := 10

  function Power128(k: nat): (p: nat)
    ensures p > 0
  {
    if k == 0 then 1 else 128 * Power128(k - 1)
  }

  // ---------- the wire format ----------

  /** Base 128 Varints: least significant group first, high bit set on all but the last byte. */
  function EncodeVarint(v: nat): (bytes: seq<Byte>)
    ensures bytes != []
  {
    if v < 128 then [v] else [v % 128 + 128] + EncodeVarint(v / 128)
  }

  /** Message Structure: one record a field, by wire type 0, 1, 2 or 5. */
  datatype Record =
    | Varint(field: nat, value: nat)
    | Fixed64(field: nat, word: seq<Byte>)
    | Delimited(field: nat, bytes: seq<Byte>)
    | Fixed32(field: nat, word: seq<Byte>)
  {
    function Wire(): nat {
      match this
      case Varint(_, _) => 0
      case Fixed64(_, _) => 1
      case Delimited(_, _) => 2
      case Fixed32(_, _) => 5
    }

    function Tag(): nat {
      field * 8 + Wire()
    }

    function Body(): seq<Byte> {
      match this
      case Varint(_, v) => EncodeVarint(v)
      case Fixed64(_, word) => word
      case Delimited(_, bytes) => EncodeVarint(|bytes|) + bytes
      case Fixed32(_, word) => word
    }

    function Encode(): seq<Byte> {
      EncodeVarint(Tag()) + Body()
    }

    /** Every number fits a ten-byte varint, which is 70 bits and so covers all 64-bit values. */
    predicate WellFormed() {
      && Tag() < Power128(MAX_VARINT_BYTES)
      && match this
         case Varint(_, v) => v < Power128(MAX_VARINT_BYTES)
         case Fixed64(_, word) => |word| == 8
         case Delimited(_, bytes) => |bytes| < Power128(MAX_VARINT_BYTES)
         case Fixed32(_, word) => |word| == 4
    }
  }

  ghost predicate AllWellFormed(records: seq<Record>) {
    forall i | 0 <= i < |records| :: records[i].WellFormed()
  }

  function EncodeAll(records: seq<Record>): seq<Byte> {
    if records == [] then [] else records[0].Encode() + EncodeAll(records[1..])
  }

  // ---------- the scanner ----------

  /** What a varint read returns: the value, or none when the bytes ran out, and the bytes consumed. */
  datatype Read = Read(value: Option<nat>, used: nat)

  /** The seven value bits of `b` join the groups below `scale`. */
  function Gather(result: nat, b: Byte, scale: nat): nat {
    result + (b % 128) * scale
  }

  /** Continues a varint at the front of `buf`: `result` so far, the next group worth `scale`, `room` bytes left. */
  function ReadOn(buf: seq<Byte>, result: nat, scale: nat, room: nat): (r: Read)
    requires room > 0
    ensures r.used <= |buf| && (buf != [] ==> r.used > 0)
  {
    if buf == [] then Read(None, 0)
    else
      var sum := Gather(result, buf[0], scale);
      if buf[0] < 128 then Read(Some(sum), 1)
      else if room == 1 then Read(None, 1)
      else
        var later := ReadOn(buf[1..], sum, scale * 128, room - 1);
        Read(later.value, later.used + 1)
  }

  function ReadVarint(buf: seq<Byte>): (r: Read)
    ensures r.used <= |buf| && (buf != [] ==> r.used > 0)
  {
    ReadOn(buf, 0, 1, MAX_VARINT_BYTES)
  }

  /** One pass of the scan loop: it stops, or moves on by `used` bytes with perhaps a fixed32 word found. */
  datatype Pass = Stop | Next(used: nat, found: Option<(nat, seq<Byte>)>)

  /** The rest of a pass, once a tag of `used` bytes has given the field and the wire type. */
  function AfterTag(field: nat, wire: nat, body: seq<Byte>, used: nat): (p: Pass)
    requires used > 0
    ensures p.Next? ==> 0 < p.used <= used + |body|
  {
    if wire == 0 then Next(used + ReadVarint(body).used, None)
    else if wire == 1 then if |body| < 8 then Stop else Next(used + 8, None)
    else if wire == 2 then
      var length := ReadVarint(body);
      if length.value.None? || length.used + length.value.value > |body| then Stop
      else Next(used + length.used + length.value.value, None)
    else if wire == 5 then
      if |body| < 4 then Stop else Next(used + 4, Some((field, body[..4])))
    else Stop
  }

  function OnePass(buf: seq<Byte>): (p: Pass)
    ensures p.Next? ==> 0 < p.used <= |buf|
  {
    var tag := ReadVarint(buf);
    if tag.value.None? then Stop
    else AfterTag(tag.value.value / 8, tag.value.value % 8, buf[tag.used..], tag.used)
  }

  type Words = map<string, seq<Byte>>

  function Put(out: Words, mapping: map<nat, string>, found: Option<(nat, seq<Byte>)>): Words {
    if found.Some? && found.value.0 in mapping then out[mapping[found.value.0] := found.value.1] else out
  }

  /** The scan from the front of `buf`; `out` holds the words found so far. */
  function Scan(buf: seq<Byte>, mapping: map<nat, string>, out: Words): Words {
    var p := OnePass(buf);
    if buf == [] || p.Stop? then out else Scan(buf[p.used..], mapping, Put(out, mapping, p.found))
  }

  /** Seven more bits above `result`: nothing overlaps, and the sum still lies below the next group. */
  lemma GroupsDisjoint(result: nat, group: nat, scale: nat)
    requires result < scale && group < 128
    ensures result + group * scale < scale * 128
  {
    assert group * scale <= 127 * scale;
  }

  method ReadVarintAt(buf: seq<Byte>, start: nat) returns (value: Option<nat>, i: nat)
    requires start <= |buf|
    ensures i >= start && Read(value, i - start) == ReadVarint(buf[start..])
  {
    i := start;
    var result: nat, shift: nat, scale: nat := 0, 0, 1;
    while i < |buf|
      invariant start <= i <= |buf| && shift == 7 * (i - start) && shift <= 63
      // The bits gathered so far lie below the next group, so `|` with the shifted group is `+`.
      invariant scale == Power128(i - start) && 0 <= result < scale
      invariant var rest := ReadOn(buf[i..], result, scale, MAX_VARINT_BYTES - (i - start));
                ReadVarint(buf[start..]) == Read(rest.value, i - start + rest.used)
    {
      var b := buf[i];
      assert buf[i..][1..] == buf[i + 1..];
      GroupsDisjoint(result, b as int % 128, scale);
      i := i + 1;
      result := result + (b as int % 128) * scale;
      if b < 128 {
        return Some(result), i;
      }
      shift, scale := shift + 7, scale * 128;
      if shift > 63 {
        return None, i;
      }
    }
    value := None;
  }

  method ExtractUndeclaredFloats(pdata: seq<Byte>, mapping: map<nat, string>) returns (out: Words)
    ensures out == Scan(pdata, mapping, map[])
  {
    out := map[];
    if pdata == [] || |mapping| == 0 {
      NothingMapped(pdata, mapping, map[]);
      return;
    }
    var i, n := 0, |pdata|;
    while i < n
      invariant Scan(pdata, mapping, map[]) == if i <= n then Scan(pdata[i..], mapping, out) else out
      decreases n - i
    {
      ghost var at, p := i, OnePass(pdata[i..]);
      var tag;
      tag, i := ReadVarintAt(pdata, i);
      assert pdata[at..][i - at..] == pdata[i..];
      if tag.None? {
        return;
      }
      var field, wire := tag.value / 8, tag.value % 8;
      assert p == AfterTag(field, wire, pdata[i..], i - at);
      if wire == 0 {
        var _, after := ReadVarintAt(pdata, i);
        i := after;
      } else if wire == 1 {
        i := i + 8;
      } else if wire == 2 {
        var length, after := ReadVarintAt(pdata, i);
        i := after;
        if length.None? || i + length.value > n {
          return;
        }
        i := i + length.value;
      } else if wire == 5 {
        if i + 4 > n {
          return;
        }
        assert pdata[i..][..4] == pdata[i..i + 4];
        if field in mapping {
          out := out[mapping[field] := pdata[i..i + 4]];
        }
        i := i + 4;
      } else {
        return;
      }
      assert p.Next? ==> i == at + p.used && pdata[at..][p.used..] == pdata[i..];
    }
  }

  lemma {:induction false} NothingMapped(buf: seq<Byte>, mapping: map<nat, string>, out: Words)
    requires buf == [] || |mapping| == 0
    ensures Scan(buf, mapping, out) == out
    decreases |buf|
  {
    var p := OnePass(buf);
    if buf != [] && p.Next? {
      NothingMapped(buf[p.used..], mapping, out);
    }
  }

  // ---------- scanning inverts encoding ----------

  /** What one record says: a fixed32 word for its field, or nothing the scanner reports. */
  function Word(r: Record): Option<(nat, seq<Byte>)> {
    if r.Fixed32? then Some((r.field, r.word)) else None
  }

  /** What the records say: later words overwrite earlier ones of the same name. */
  function Collect(records: seq<Record>, mapping: map<nat, string>, out: Words): Words {
    if records == [] then out else Collect(records[1..], mapping, Put(out, mapping, Word(records[0])))
  }

  /** The first group and the rest, worth 128 times as much, add up to the whole number. */
  lemma SplitGroup(v: nat, b: Byte, result: nat, scale: nat)
    requires b == v % 128 + 128
    ensures Gather(result, b, scale) + scale * 128 * (v / 128) == result + scale * v
  {
    assert v == v % 128 + 128 * (v / 128) && b % 128 == v % 128;
    assert scale * v == scale * (v % 128) + scale * (128 * (v / 128));
    assert scale * 128 * (v / 128) == scale * (128 * (v / 128));
  }

  lemma {:induction false} ReadOnEncoded(v: nat, later: seq<Byte>, result: nat, scale: nat, room: nat)
    requires room > 0 && v < Power128(room)
    ensures ReadOn(EncodeVarint(v) + later, result, scale, room) == Read(Some(result + scale * v), |EncodeVarint(v)|)
  {
    var buf := EncodeVarint(v) + later;
    if v >= 128 {
      assert room > 1;
      assert buf[1..] == EncodeVarint(v / 128) + later && buf[0] == v % 128 + 128;
      var sum := Gather(result, buf[0], scale);
      ReadOnEncoded(v / 128, later, sum, scale * 128, room - 1);
      SplitGroup(v, buf[0], result, scale);
    }
  }

  lemma VarintRoundTrip(v: nat, later: seq<Byte>)
    requires v < Power128(MAX_VARINT_BYTES)
    ensures ReadVarint(EncodeVarint(v) + later) == Read(Some(v), |EncodeVarint(v)|)
  {
    ReadOnEncoded(v, later, 0, 1, MAX_VARINT_BYTES);
  }

  lemma {:induction false} ReadOnTruncated(v: nat, k: nat, result: nat, scale: nat, room: nat)
    requires room > 0 && v < Power128(room) && k < |EncodeVarint(v)|
    ensures ReadOn(EncodeVarint(v)[..k], result, scale, room) == Read(None, k)
  {
    if k > 0 {
      assert room > 1;
      var buf := EncodeVarint(v)[..k];
      assert buf[1..] == EncodeVarint(v / 128)[..k - 1] && buf[0] == v % 128 + 128;
      ReadOnTruncated(v / 128, k - 1, Gather(result, buf[0], scale), scale * 128, room - 1);
    }
  }

  /** A varint cut short is not a number: the reader consumes all of it and reports none. */
  lemma TruncatedVarint(v: nat, k: nat)
    requires v < Power128(MAX_VARINT_BYTES) && k < |EncodeVarint(v)|
    ensures ReadVarint(EncodeVarint(v)[..k]) == Read(None, k)
  {
    ReadOnTruncated(v, k, 0, 1, MAX_VARINT_BYTES);
  }

  /** Ten bytes that all ask for another one are no number, and are used up. */
  lemma {:induction false} OverlongReads(buf: seq<Byte>, result: nat, scale: nat, room: nat)
    requires 0 < room <= |buf| && forall i | 0 <= i < room :: buf[i] >= 128
    ensures ReadOn(buf, result, scale, room) == Read(None, room)
  {
    if room > 1 {
      OverlongReads(buf[1..], Gather(result, buf[0], scale), scale * 128, room - 1);
    }
  }

  lemma OverlongVarint(buf: seq<Byte>)
    requires |buf| >= 10 && forall i | 0 <= i < 10 :: buf[i] >= 128
    ensures ReadVarint(buf) == Read(None, 10)
  {
    OverlongReads(buf, 0, 1, 10);
  }

  /** The tag of a record, whatever follows it. */
  lemma PassTag(r: Record, body: seq<Byte>)
    requires r.WellFormed()
    ensures OnePass(EncodeVarint(r.Tag()) + body) == AfterTag(r.field, r.Wire(), body, |EncodeVarint(r.Tag())|)
  {
    var tag := EncodeVarint(r.Tag());
    VarintRoundTrip(r.Tag(), body);
    assert (tag + body)[|tag|..] == body;
    assert r.Tag() / 8 == r.field && r.Tag() % 8 == r.Wire();
  }

  lemma PassBody(r: Record, later: seq<Byte>, used: nat)
    requires r.WellFormed() && used > 0
    ensures AfterTag(r.field, r.Wire(), r.Body() + later, used) == Next(used + |r.Body()|, Word(r))
  {
    var body := r.Body() + later;
    match r {
      case Varint(_, v) =>
        VarintRoundTrip(v, later);
      case Fixed64(_, _) =>
      case Delimited(_, bytes) =>
        assert body == EncodeVarint(|bytes|) + (bytes + later);
        VarintRoundTrip(|bytes|, bytes + later);
      case Fixed32(_, word) =>
        assert body[..4] == word;
    }
  }

  /** One whole record at the front: the pass moves past it and reports its word if it is a fixed32. */
  lemma PassRecord(r: Record, later: seq<Byte>)
    requires r.WellFormed()
    ensures OnePass(r.Encode() + later) == Next(|r.Encode()|, Word(r))
  {
    PassTag(r, r.Body() + later);
    PassBody(r, later, |EncodeVarint(r.Tag())|);
    assert r.Encode() + later == EncodeVarint(r.Tag()) + (r.Body() + later);
  }

  lemma PassCutBody(r: Record, k: nat, used: nat)
    requires r.WellFormed() && used > 0 && k < |r.Body()|
    ensures AfterTag(r.field, r.Wire(), r.Body()[..k], used) in {Stop, Next(used + k, None)}
  {
    var body := r.Body()[..k];
    match r {
      case Varint(_, v) =>
        TruncatedVarint(v, k);
      case Delimited(_, bytes) =>
        var prefix := EncodeVarint(|bytes|);
        if k < |prefix| {
          TruncatedVarint(|bytes|, k);
          assert body == prefix[..k];
        } else {
          assert body == prefix + bytes[..k - |prefix|];
          VarintRoundTrip(|bytes|, bytes[..k - |prefix|]);
        }
      case _ =>
    }
  }

  /** A record cut within its tag stops the scan. */
  lemma PassCutTag(r: Record, k: nat)
    requires r.WellFormed() && k < |EncodeVarint(r.Tag())|
    ensures k <= |r.Encode()| && OnePass(r.Encode()[..k]) == Stop
  {
    TruncatedVarint(r.Tag(), k);
    assert r.Encode()[..k] == EncodeVarint(r.Tag())[..k];
  }

  /** A record cut behind its tag stops the scan or is used up. */
  lemma PassCutBehindTag(r: Record, k: nat)
    requires r.WellFormed() && k < |r.Body()|
    ensures OnePass(EncodeVarint(r.Tag()) + r.Body()[..k]) in {Stop, Next(|EncodeVarint(r.Tag())| + k, None)}
  {
    var tag, body := EncodeVarint(r.Tag()), r.Body()[..k];
    assert OnePass(tag + body) == AfterTag(r.field, r.Wire(), body, |tag|) by { PassTag(r, body); }
    PassCutBody(r, k, |tag|);
  }

  /** A record cut short yields no word: the pass stops, or uses up what is left. */
  lemma PassCutRecord(r: Record, k: nat)
    requires r.WellFormed() && k < |r.Encode()|
    ensures OnePass(r.Encode()[..k]) in {Stop, Next(k, None)}
  {
    var tag, body := EncodeVarint(r.Tag()), r.Body();
    assert r.Encode() == tag + body;
    if k < |tag| {
      PassCutTag(r, k);
    } else {
      PassCutBehindTag(r, k - |tag|);
      assert (tag + body)[..k] == tag + body[..k - |tag|];
    }
  }

  /** How many records are complete in the first `k` bytes of the message. */
  function Complete(records: seq<Record>, k: nat): (m: nat)
    ensures m <= |records|
  {
    if records == [] || k < |records[0].Encode()| then 0
    else 1 + Complete(records[1..], k - |records[0].Encode()|)
  }

  lemma ScanRecord(r: Record, later: seq<Byte>, mapping: map<nat, string>, out: Words)
    requires r.WellFormed()
    ensures Scan(r.Encode() + later, mapping, out) == Scan(later, mapping, Put(out, mapping, Word(r)))
  {
    PassRecord(r, later);
    assert (r.Encode() + later)[|r.Encode()|..] == later;
  }

  lemma ScanCutRecord(r: Record, k: nat, mapping: map<nat, string>, out: Words)
    requires r.WellFormed() && k < |r.Encode()|
    ensures Scan(r.Encode()[..k], mapping, out) == out
  {
    PassCutRecord(r, k);
    assert Scan([], mapping, out) == out;
  }

  lemma CollectHead(records: seq<Record>, m: nat, mapping: map<nat, string>, out: Words)
    requires m < |records|
    ensures Collect(records[..m + 1], mapping, out) ==
            Collect(records[1..][..m], mapping, Put(out, mapping, Word(records[0])))
  {
    assert records[..m + 1][1..] == records[1..][..m];
  }

  /** A prefix of the message either cuts the first record or holds it whole. */
  lemma PrefixSplits(records: seq<Record>, k: nat)
    requires records != [] && k <= |EncodeAll(records)|
    ensures var bytes := records[0].Encode();
            if k < |bytes| then EncodeAll(records)[..k] == bytes[..k]
            else k - |bytes| <= |EncodeAll(records[1..])|
                 && EncodeAll(records)[..k] == bytes + EncodeAll(records[1..])[..k - |bytes|]
  {
    var bytes, rest := records[0].Encode(), EncodeAll(records[1..]);
    assert EncodeAll(records) == bytes + rest;
  }

  /** The first record is whole: the scan takes its word and goes on after it. */
  lemma PrefixScan(records: seq<Record>, k: nat, mapping: map<nat, string>, out: Words)
    requires records != [] && records[0].WellFormed() && |records[0].Encode()| <= k <= |EncodeAll(records)|
    ensures k - |records[0].Encode()| <= |EncodeAll(records[1..])|
    ensures Scan(EncodeAll(records)[..k], mapping, out) ==
            Scan(EncodeAll(records[1..])[..k - |records[0].Encode()|], mapping, Put(out, mapping, Word(records[0])))
  {
    PrefixSplits(records, k);
    ScanRecord(records[0], EncodeAll(records[1..])[..k - |records[0].Encode()|], mapping, out);
  }

  /** And so do the words of the complete records. */
  lemma PrefixCollect(records: seq<Record>, k: nat, mapping: map<nat, string>, out: Words)
    requires records != [] && |records[0].Encode()| <= k
    ensures Collect(records[..Complete(records, k)], mapping, out) ==
            Collect(records[1..][..Complete(records[1..], k - |records[0].Encode()|)], mapping,
                    Put(out, mapping, Word(records[0])))
  {
    CollectHead(records, Complete(records[1..], k - |records[0].Encode()|), mapping, out);
  }

  /** Whatever was found before: scanning the first `k` bytes finds what the records complete in them say. */
  ghost predicate PrefixRight(records: seq<Record>, k: nat, mapping: map<nat, string>)
    requires k <= |EncodeAll(records)|
  {
    forall out: Words ::
      Scan(EncodeAll(records)[..k], mapping, out) == Collect(records[..Complete(records, k)], mapping, out)
  }

  lemma PrefixCut(records: seq<Record>, k: nat, mapping: map<nat, string>)
    requires records != [] && records[0].WellFormed() && k < |records[0].Encode()| && k <= |EncodeAll(records)|
    ensures PrefixRight(records, k, mapping)
  {
    PrefixSplits(records, k);
    assert records[..Complete(records, k)] == [];
    forall out: Words
      ensures Scan(EncodeAll(records)[..k], mapping, out) == Collect(records[..Complete(records, k)], mapping, out)
    {
      ScanCutRecord(records[0], k, mapping, out);
    }
  }

  lemma PrefixWhole(records: seq<Record>, k: nat, later: nat, mapping: map<nat, string>)
    requires records != [] && records[0].WellFormed() && |records[0].Encode()| <= k <= |EncodeAll(records)|
    requires later == k - |records[0].Encode()| && later <= |EncodeAll(records[1..])|
    requires PrefixRight(records[1..], later, mapping)
    ensures PrefixRight(records, k, mapping)
  {
    var here, there := EncodeAll(records)[..k], EncodeAll(records[1..])[..later];
    var done, doneThere := records[..Complete(records, k)], records[1..][..Complete(records[1..], later)];
    forall out: Words ensures Scan(here, mapping, out) == Collect(done, mapping, out) {
      var next := Put(out, mapping, Word(records[0]));
      assert Scan(here, mapping, out) == Scan(there, mapping, next) by {
        PrefixScan(records, k, mapping, out);
      }
      assert Collect(done, mapping, out) == Collect(doneThere, mapping, next) by {
        PrefixCollect(records, k, mapping, out);
      }
    }
  }

  /** What is left of the prefix after a first record that is whole. */
  lemma LaterPrefix(records: seq<Record>, k: nat) returns (later: nat)
    requires records != [] && AllWellFormed(records) && |records[0].Encode()| <= k <= |EncodeAll(records)|
    ensures later == k - |records[0].Encode()| && later <= |EncodeAll(records[1..])|
    ensures records[0].WellFormed() && AllWellFormed(records[1..])
  {
    later := k - |records[0].Encode()|;
  }

  lemma NothingScanned(mapping: map<nat, string>)
    ensures PrefixRight([], 0, mapping)
  {
  }

  lemma {:induction false} PrefixesRight(records: seq<Record>, k: nat, mapping: map<nat, string>)
    requires AllWellFormed(records) && k <= |EncodeAll(records)|
    ensures PrefixRight(records, k, mapping)
    decreases |records|
  {
    if records == [] {
      NothingScanned(mapping);
    } else {
      if k < |records[0].Encode()| {
        assert records[0].WellFormed();
        PrefixCut(records, k, mapping);
      } else {
        var later := LaterPrefix(records, k);
        PrefixesRight(records[1..], later, mapping);
        PrefixWhole(records, k, later, mapping);
      }
    }
  }

  lemma ScanPrefix(records: seq<Record>, k: nat, mapping: map<nat, string>, out: Words)
    requires AllWellFormed(records) && k <= |EncodeAll(records)|
    ensures Scan(EncodeAll(records)[..k], mapping, out) == Collect(records[..Complete(records, k)], mapping, out)
  {
    PrefixesRight(records, k, mapping);
  }

  lemma {:induction false} WholeIsComplete(records: seq<Record>)
    ensures Complete(records, |EncodeAll(records)|) == |records|
  {
    if records != [] {
      WholeIsComplete(records[1..]);
    }
  }

  /**
   * The scanner inverts the encoder, and degrades cleanly: on any prefix of a well-formed message
   * it reports exactly what the records complete in that prefix say.
   */
  lemma ScanInvertsEncoding(records: seq<Record>, k: nat, mapping: map<nat, string>)
    requires AllWellFormed(records) && k <= |EncodeAll(records)|
    ensures Scan(EncodeAll(records)[..k], mapping, map[]) == Collect(records[..Complete(records, k)], mapping, map[])
    ensures Scan(EncodeAll(records), mapping, map[]) == Collect(records, mapping, map[])
  {
    ScanPrefix(records, k, mapping, map[]);
    var n := |EncodeAll(records)|;
    ScanPrefix(records, n, mapping, map[]);
    WholeIsComplete(records);
    assert EncodeAll(records)[..n] == EncodeAll(records) && records[..|records|] == records;
  }

  /** Record `i` carries the field reported under `name`. */
  predicate Names(records: seq<Record>, i: nat, mapping: map<nat, string>, name: string)
    requires i < |records|
  {
    records[i].Fixed32? && records[i].field in mapping && mapping[records[i].field] == name
  }

  /** Last One Wins: a name is reported exactly when some record carries it, with the last such word. */
  lemma LastOneWins(records: seq<Record>, mapping: map<nat, string>, name: string)
    ensures var got := Collect(records, mapping, map[]);
            && (name in got <==> exists i | 0 <= i < |records| :: Names(records, i, mapping, name))
            && forall i | 0 <= i < |records| && Names(records, i, mapping, name)
                 && (forall j | i < j < |records| :: !Names(records, j, mapping, name)) :: got[name] == records[i].word
  {
    CollectKeepsLast(records, mapping, map[], name);
    if exists i :: 0 <= i < |records| && Names(records, i, mapping, name) {
      var i :| 0 <= i < |records| && Names(records, i, mapping, name);
    }
  }

  lemma {:induction false} CollectKeepsLast(records: seq<Record>, mapping: map<nat, string>, out: Words, name: string)
    ensures var got := Collect(records, mapping, out);
            && (name in got <==> name in out || exists i | 0 <= i < |records| :: Names(records, i, mapping, name))
            && (forall i | 0 <= i < |records| && Names(records, i, mapping, name)
                  && (forall j | i < j < |records| :: !Names(records, j, mapping, name)) ::
                  got[name] == records[i].word)
            && ((forall i | 0 <= i < |records| :: !Names(records, i, mapping, name)) && name in out ==>
                  got[name] == out[name])
  {
    if records != [] {
      var later := records[1..];
      CollectKeepsLast(later, mapping, Put(out, mapping, Word(records[0])), name);
      assert forall i | 0 < i < |records| :: Names(records, i, mapping, name) == Names(later, i - 1, mapping, name);
      assert forall i | 0 <= i < |later| :: Names(later, i, mapping, name) == Names(records, i + 1, mapping, name);
      assert Names(records, 0, mapping, name) ==> name in Put(out, mapping, Word(records[0]));
      assert !Names(records, 0, mapping, name) ==>
               (name in Put(out, mapping, Word(records[0])) <==> name in out)
               && (name in out ==> Put(out, mapping, Word(records[0]))[name] == out[name]);
    }
  }

  /** A tag of a wire type that is none of the four ends the scan. */
  lemma UnknownTag(field: nat, wire: nat, later: seq<Byte>)
    requires wire in {3, 4, 6, 7} && field * 8 + wire < Power128(MAX_VARINT_BYTES)
    ensures OnePass(EncodeVarint(field * 8 + wire) + later) == Stop
  {
    VarintRoundTrip(field * 8 + wire, later);
    assert (field * 8 + wire) / 8 == field && (field * 8 + wire) % 8 == wire;
  }

  /**
   * A group or a reserved wire type stops the scan: whatever bytes follow its tag, however much they
   * look like records, the scan reports what the records before it say.
   */
  lemma {:induction false} UnknownTypeStops(records: seq<Record>, field: nat, wire: nat, later: seq<Byte>,
                                            mapping: map<nat, string>, out: Words)
    requires AllWellFormed(records) && wire in {3, 4, 6, 7} && field * 8 + wire < Power128(MAX_VARINT_BYTES)
    ensures Scan(EncodeAll(records) + (EncodeVarint(field * 8 + wire) + later), mapping, out) ==
            Collect(records, mapping, out)
  {
    var tail := EncodeVarint(field * 8 + wire) + later;
    if records == [] {
      UnknownTag(field, wire, later);
      assert EncodeAll(records) + tail == tail;
    } else {
      var r, rest := records[0], EncodeAll(records[1..]);
      assert r.WellFormed();
      assert EncodeAll(records) + tail == r.Encode() + (rest + tail) by {
        Assoc(r.Encode(), rest, tail);
      }
      ScanRecord(r, rest + tail, mapping, out);
      UnknownTypeStops(records[1..], field, wire, later, mapping, Put(out, mapping, Word(r)));
    }
  }
}
