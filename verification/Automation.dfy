/** The edge-triggered rule engine: when a battery rule switches its plug, over any run. */
module Automation {
  import opened Prelude

  const EQUALS_TOLERANCE := 0.5

  datatype Operator = Lt | Le | Eq | Ge | Gt | UnknownOperator
  datatype Command = TurnOn | TurnOff | UnknownCommand

  /** A stored rule; `value` is absent when it does not read as a number. */
  datatype Rule = Rule(
    id: string,
    enabled: bool,
    op: Operator,
    value: Option<real>,
    action: Command,
    host: string,
    deviceSn: string,
    lastFired: Option<real>,
    lastState: Option<bool>,
    lastError: bool)

  predicate Matches(r: Rule, soc: real) {
    r.value.Some? &&
    match r.op
    case Lt => soc < r.value.value
    case Le => soc <= r.value.value
    case Eq => r.value.value - EQUALS_TOLERANCE <= soc <= r.value.value + EQUALS_TOLERANCE
    case Ge => soc >= r.value.value
    case Gt => soc > r.value.value
    case UnknownOperator => false
  }

  // ---------- one rule ----------

  /** What one event means to one rule. A plug call is only its success. */
  datatype Look =
    | Disabled
    | Unseen
    | Known(matches: bool, plugOk: bool)
    | Reset(last: Option<bool>)

  /** The remembered state after the event. The edge is consumed only when the plug call succeeds. */
  function NextState(last: Option<bool>, look: Look): Option<bool> {
    match look
    case Disabled => None
    case Unseen => last
    case Reset(l) => l
    case Known(m, ok) => if m && last != Some(true) then (if ok then Some(true) else last) else Some(m)
  }

  predicate Fires(last: Option<bool>, look: Look) {
    look == Known(true, true) && last != Some(true)
  }

  function StateAfter(init: Option<bool>, looks: seq<Look>, n: nat): Option<bool>
    requires n <= |looks|
  {
    if n == 0 then init else NextState(StateAfter(init, looks, n - 1), looks[n - 1])
  }

  predicate FiresAt(init: Option<bool>, looks: seq<Look>, n: nat)
    requires n < |looks|
  {
    Fires(StateAfter(init, looks, n), looks[n])
  }

  /** Uses up the edge: a firing, or an edit that says the condition already held. */
  predicate Consumes(look: Look) {
    look == Known(true, true) || look == Reset(Some(true))
  }

  /** Ends a stretch: the condition seen false, the rule disabled, or its edge state reset. */
  predicate Breaks(look: Look) {
    look.Disabled? || (look.Known? && !look.matches) || (look.Reset? && look.last != Some(true))
  }

  ghost predicate NoBreak(looks: seq<Look>, from: nat, to: nat)
    requires to <= |looks|
  {
    forall k | from <= k < to :: !Breaks(looks[k])
  }

  /** The edge was used up before event `n` and no later event ended the stretch. */
  ghost predicate Held(init: Option<bool>, looks: seq<Look>, n: nat)
    requires n <= |looks|
  {
    (init == Some(true) && NoBreak(looks, 0, n))
    || exists k: nat :: k < n && Consumes(looks[k]) && NoBreak(looks, k + 1, n)
  }

  lemma {:induction false} HeldExactly(init: Option<bool>, looks: seq<Look>, n: nat)
    requires n <= |looks|
    ensures StateAfter(init, looks, n) == Some(true) <==> Held(init, looks, n)
  {
    if n > 0 {
      HeldExactly(init, looks, n - 1);
      var look := looks[n - 1];
      if Held(init, looks, n - 1) && !Breaks(look) {
        if !(init == Some(true) && NoBreak(looks, 0, n - 1)) {
          var k: nat :| k < n - 1 && Consumes(looks[k]) && NoBreak(looks, k + 1, n - 1);
          assert Consumes(looks[k]) && NoBreak(looks, k + 1, n);
        }
      }
      if Held(init, looks, n) && !Consumes(look) {
        if k: nat :| k < n && Consumes(looks[k]) && NoBreak(looks, k + 1, n) {
          assert NoBreak(looks, k + 1, n - 1);
        }
        assert Held(init, looks, n - 1) && !Breaks(look);
      }
      if Consumes(look) {
        assert NoBreak(looks, n, n);
      }
    }
  }

  /**
   * Edge triggering, from the history alone: a rule fires exactly at an event where its condition
   * holds and the plug call succeeds, and no earlier success (or edit) has used up the current
   * stretch. Unseen events neither end nor start a stretch, and failed plug calls leave it open.
   */
  lemma FiresExactly(init: Option<bool>, looks: seq<Look>, n: nat)
    requires n < |looks|
    ensures FiresAt(init, looks, n) <==> looks[n] == Known(true, true) && !Held(init, looks, n)
  {
    HeldExactly(init, looks, n);
  }

  function Firings(init: Option<bool>, looks: seq<Look>, from: nat, to: nat): nat
    requires from <= to <= |looks|
  {
    if from == to then 0 else Firings(init, looks, from, to - 1) + if FiresAt(init, looks, to - 1) then 1 else 0
  }

  /** A stretch that starts with the edge unused fires exactly once if any plug call in it succeeds, else never. */
  lemma {:induction false} StretchFiresOnce(init: Option<bool>, looks: seq<Look>, from: nat, to: nat)
    requires from <= to <= |looks| && StateAfter(init, looks, from) != Some(true)
    requires forall k | from <= k < to :: looks[k].Unseen? || (looks[k].Known? && looks[k].matches)
    ensures var succeeded := exists k :: from <= k < to && looks[k] == Known(true, true);
            && Firings(init, looks, from, to) == (if succeeded then 1 else 0)
            && (StateAfter(init, looks, to) == Some(true) <==> succeeded)
  {
    if from < to {
      StretchFiresOnce(init, looks, from, to - 1);
      if k :| from <= k < to && looks[k] == Known(true, true) {
        assert k == to - 1 || from <= k < to - 1;
      }
    }
  }

  // ---------- the engine ----------

  /** A SOC reading for the rule's own device, else for the active one; empty serials do not count. */
  function TargetSoc(r: Rule, socs: map<string, Option<real>>, activeSn: string): Option<real> {
    var target := if r.deviceSn != "" then r.deviceSn else activeSn;
    if target != "" && target in socs then socs[target] else None
  }

  function Observe(r: Rule, socs: map<string, Option<real>>, activeSn: string, plugOk: bool): Look {
    var soc := TargetSoc(r, socs, activeSn);
    if !r.enabled then Disabled else if soc.None? then Unseen else Known(Matches(r, soc.value), plugOk)
  }

  function EvaluateRule(r: Rule, look: Look, now: real): Rule {
    var next := r.(lastState := NextState(r.lastState, look));
    if Fires(r.lastState, look) then next.(lastFired := Some(now), lastError := false)
    else if look == Known(true, false) && r.lastState != Some(true) then next.(lastError := true)
    else next
  }

  datatype Event =
    | Evaluated(socs: map<string, Option<real>>, activeSn: string, plug: nat -> bool, now: real)
    | DisabledMany(ids: set<string>)
    | Upserted(rule: Rule)

  datatype AutomationError = BadOperator | BadValue | BadAction | MissingHost

  function Validate(raw: Rule): Result<Rule, AutomationError> {
    if raw.op.UnknownOperator? then Err(BadOperator)
    else if raw.value.None? then Err(BadValue)
    else if raw.action.UnknownCommand? then Err(BadAction)
    else if raw.host == "" then Err(MissingHost)
    else Ok(raw)
  }

  /** The first position with this id, or the length. */
  function PositionOf(rules: seq<Rule>, id: string): (i: nat)
    ensures i <= |rules| && (i < |rules| ==> rules[i].id == id)
    ensures forall k | 0 <= k < i :: rules[k].id != id
  {
    if rules == [] || rules[0].id == id then 0 else 1 + PositionOf(rules[1..], id)
  }

  /** An edit keeps the time of the last firing unless the caller passes one. */
  function Replacement(old_: Rule, clean: Rule): Rule {
    clean.(lastFired := if clean.lastFired in {None, Some(0.0)} then old_.lastFired else clean.lastFired)
  }

  function Apply(rules: seq<Rule>, e: Event): (after: seq<Rule>)
    ensures |after| >= |rules|
  {
    match e
    case Evaluated(socs, active, plug, now) =>
      if socs == map[] then rules
      else seq(|rules|, i requires 0 <= i < |rules| =>
             EvaluateRule(rules[i], Observe(rules[i], socs, active, plug(i)), now))
    case DisabledMany(ids) =>
      seq(|rules|, i requires 0 <= i < |rules| =>
        if rules[i].id in ids && rules[i].enabled then rules[i].(enabled := false, lastState := None) else rules[i])
    case Upserted(raw) =>
      if Validate(raw).Err? then rules
      else
        var i := PositionOf(rules, raw.id);
        if i < |rules| then rules[i := Replacement(rules[i], raw)] else rules + [raw]
  }

  /** What the event means to the rule at position `i`. */
  function LookAt(rules: seq<Rule>, e: Event, i: nat): Look
    requires i < |rules|
  {
    match e
    case Evaluated(socs, active, plug, _) =>
      if socs == map[] then Unseen else Observe(rules[i], socs, active, plug(i))
    case DisabledMany(ids) => if rules[i].id in ids && rules[i].enabled then Disabled else Unseen
    case Upserted(raw) =>
      if Validate(raw).Ok? && PositionOf(rules, raw.id) == i then Reset(raw.lastState) else Unseen
  }

  predicate FiresIn(rules: seq<Rule>, e: Event, i: nat)
    requires i < |rules|
  {
    e.Evaluated? && Fires(rules[i].lastState, LookAt(rules, e, i))
  }

  /** A plug call is made for the rule: it matches and its edge is unused. */
  predicate CallsIn(rules: seq<Rule>, e: Event, i: nat)
    requires i < |rules|
  {
    e.Evaluated? && rules[i].lastState != Some(true)
    && LookAt(rules, e, i).Known? && LookAt(rules, e, i).matches
  }

  /** A plug call as it is made: to which host, on or off. */
  datatype PlugCall = PlugCall(rule: nat, host: string, on: bool)

  function Callers(calls: seq<PlugCall>): seq<nat> {
    seq(|calls|, k requires 0 <= k < |calls| => calls[k].rule)
  }

  /** For each of the first `n` rules that is due one call in rule order, to its own plug, with its own command. */
  ghost predicate CallsMade(rules: seq<Rule>, e: Event, n: nat, calls: seq<PlugCall>)
    requires n <= |rules|
  {
    && (forall k, m | 0 <= k < m < |calls| :: calls[k].rule < calls[m].rule)
    && (forall i: nat :: i in Callers(calls) <==> i < n && CallsIn(rules, e, i))
    && (forall k | 0 <= k < |calls| ::
          calls[k].rule < n
          && calls[k].host == rules[calls[k].rule].host && calls[k].on == (rules[calls[k].rule].action == TurnOn))
  }

  /** What the evaluation makes of the rule at `i`. */
  function EvaluatedRule(rules: seq<Rule>, e: Event, i: nat): Rule
    requires i < |rules| && e.Evaluated?
  {
    EvaluateRule(rules[i], LookAt(rules, e, i), e.now)
  }

  /** The first `n` rules evaluated, the others as they were. */
  function Turned(was: seq<Rule>, e: Event, n: nat): seq<Rule>
    requires n <= |was| && e.Evaluated?
  {
    seq(|was|, k requires 0 <= k < |was| => if k < n then EvaluatedRule(was, e, k) else was[k])
  }

  lemma TurnedGrow(was: seq<Rule>, e: Event, n: nat)
    requires n < |was| && e.Evaluated?
    ensures Turned(was, e, n)[n] == was[n]
    ensures Turned(was, e, n + 1) == Turned(was, e, n)[n := EvaluatedRule(was, e, n)]
  {
  }

  lemma TurnedAll(was: seq<Rule>, e: Event)
    requires e.Evaluated?
    ensures Turned(was, e, 0) == was && (e.socs != map[] ==> Turned(was, e, |was|) == Apply(was, e))
  {
  }

  /** The first `n` turns of an evaluation: which rules fire, and the plug calls made. */
  function FiredList(rules: seq<Rule>, e: Event, n: nat): seq<nat>
    requires n <= |rules|
  {
    if n == 0 then [] else if FiresIn(rules, e, n - 1) then FiredList(rules, e, n - 1) + [n - 1]
    else FiredList(rules, e, n - 1)
  }

  function CallList(rules: seq<Rule>, e: Event, n: nat): seq<PlugCall>
    requires n <= |rules|
  {
    if n == 0 then []
    else
      var before, r := CallList(rules, e, n - 1), rules[n - 1];
      if CallsIn(rules, e, n - 1) then before + [PlugCall(n - 1, r.host, r.action == TurnOn)] else before
  }

  lemma CallsGrow(rules: seq<Rule>, e: Event, n: nat, calls: seq<PlugCall>, call: PlugCall)
    requires n < |rules| && CallsMade(rules, e, n, calls)
    requires CallsIn(rules, e, n) && call == PlugCall(n, rules[n].host, rules[n].action == TurnOn)
    ensures CallsMade(rules, e, n + 1, calls + [call])
  {
    assert Callers(calls + [call]) == Callers(calls) + [n];
  }

  lemma CallsStay(rules: seq<Rule>, e: Event, n: nat, calls: seq<PlugCall>)
    requires n < |rules| && CallsMade(rules, e, n, calls) && !CallsIn(rules, e, n)
    ensures CallsMade(rules, e, n + 1, calls)
  {
  }

  /** The positions below `n` of the rules that fire, in order. */
  ghost predicate FiredAre(rules: seq<Rule>, e: Event, n: nat, fired: seq<nat>)
    requires n <= |rules|
  {
    && (forall k, m | 0 <= k < m < |fired| :: fired[k] < fired[m])
    && (forall i: nat :: i in fired <==> i < n && FiresIn(rules, e, i))
  }

  lemma FiredGrow(rules: seq<Rule>, e: Event, n: nat, fired: seq<nat>)
    requires n < |rules| && FiredAre(rules, e, n, fired) && FiresIn(rules, e, n)
    ensures FiredAre(rules, e, n + 1, fired + [n])
  {
    assert forall k | 0 <= k < |fired| :: fired[k] in fired;
  }

  lemma FiredStay(rules: seq<Rule>, e: Event, n: nat, fired: seq<nat>)
    requires n < |rules| && FiredAre(rules, e, n, fired) && !FiresIn(rules, e, n)
    ensures FiredAre(rules, e, n + 1, fired)
  {
  }

  lemma {:induction false} FiredListRight(rules: seq<Rule>, e: Event, n: nat)
    requires n <= |rules|
    ensures FiredAre(rules, e, n, FiredList(rules, e, n))
  {
    if n > 0 {
      FiredListRight(rules, e, n - 1);
      if FiresIn(rules, e, n - 1) {
        FiredGrow(rules, e, n - 1, FiredList(rules, e, n - 1));
      } else {
        FiredStay(rules, e, n - 1, FiredList(rules, e, n - 1));
      }
    }
  }

  lemma CallListStep(rules: seq<Rule>, e: Event, n: nat, before: seq<PlugCall>)
    requires n < |rules| && before == CallList(rules, e, n) && CallsMade(rules, e, n, before)
    ensures CallsMade(rules, e, n + 1, CallList(rules, e, n + 1))
  {
    if CallsIn(rules, e, n) {
      CallsGrow(rules, e, n, before, PlugCall(n, rules[n].host, rules[n].action == TurnOn));
    } else {
      CallsStay(rules, e, n, before);
    }
  }

  lemma {:induction false} CallListRight(rules: seq<Rule>, e: Event, n: nat)
    requires n <= |rules|
    ensures CallsMade(rules, e, n, CallList(rules, e, n))
  {
    if n > 0 {
      CallListRight(rules, e, n - 1);
      CallListStep(rules, e, n - 1, CallList(rules, e, n - 1));
    }
  }

  ghost predicate UniqueIds(rules: seq<Rule>) {
    forall i, j | 0 <= i < j < |rules| :: rules[i].id != rules[j].id
  }

  /** The ids that a bulk disable reports: of the enabled rules asked for, in rule order. */
  function DisabledIds(rules: seq<Rule>, ids: set<string>): seq<string> {
    if rules == [] then []
    else
      var r := rules[|rules| - 1];
      DisabledIds(rules[..|rules| - 1], ids) + if r.id in ids && r.enabled then [r.id] else []
  }

  lemma {:induction false} DisabledIdsExactly(rules: seq<Rule>, ids: set<string>)
    ensures forall id :: id in DisabledIds(rules, ids) <==>
              id in ids && exists i :: 0 <= i < |rules| && rules[i].id == id && rules[i].enabled
  {
    if rules != [] {
      var n := |rules| - 1;
      DisabledIdsExactly(rules[..n], ids);
      assert forall i | 0 <= i < n :: rules[..n][i] == rules[i];
    }
  }

  /** The rule list held by the server. */
  class AutomationEngine {
    var rules: seq<Rule>

    constructor (loaded: seq<Rule>)
      ensures rules == loaded
    {
      rules := loaded;
    }

    /** `fired` lists the positions of the rules that fired, in order; `calls` are the plug calls made. */
    method Evaluate(socs: map<string, Option<real>>, activeSn: string, plug: nat -> bool, now: real)
      returns (fired: seq<nat>, calls: seq<PlugCall>)
      modifies this
      ensures rules == Apply(old(rules), Evaluated(socs, activeSn, plug, now))
      ensures FiredAre(old(rules), Evaluated(socs, activeSn, plug, now), |old(rules)|, fired)
      ensures CallsMade(old(rules), Evaluated(socs, activeSn, plug, now), |old(rules)|, calls)
    {
      fired, calls := [], [];
      if socs == map[] {
        return;
      }
      ghost var was, e := rules, Evaluated(socs, activeSn, plug, now);
      TurnedAll(was, e);
      for i := 0 to |rules|
        invariant |rules| == |was| && rules == Turned(was, e, i)
        invariant fired == FiredList(was, e, i) && calls == CallList(was, e, i)
      {
        TurnedGrow(was, e, i);
        var r, called, ok := EvaluateOne(rules[i], socs, activeSn, plug(i), now);
        assert r == EvaluatedRule(was, e, i);
        rules := rules[i := r];
        if called {
          calls := calls + [PlugCall(i, r.host, r.action == TurnOn)];
        }
        if ok {
          fired := fired + [i];
        }
      }
      FiredListRight(was, e, |was|);
      CallListRight(was, e, |was|);
    }

    method DisableMany(ids: set<string>) returns (disabled: seq<string>)
      modifies this
      ensures rules == Apply(old(rules), DisabledMany(ids))
      ensures disabled == DisabledIds(old(rules), ids)
      ensures forall id :: id in disabled <==>
                id in ids && exists i :: 0 <= i < |old(rules)| && old(rules)[i].id == id && old(rules)[i].enabled
    {
      disabled := [];
      for i := 0 to |rules|
        invariant |rules| == |old(rules)|
        invariant forall k | 0 <= k < i :: rules[k] == Apply(old(rules), DisabledMany(ids))[k]
        invariant forall k | i <= k < |rules| :: rules[k] == old(rules)[k]
        invariant disabled == DisabledIds(old(rules)[..i], ids)
      {
        var r := rules[i];
        assert old(rules)[..i + 1][..i] == old(rules)[..i];
        if r.id in ids && r.enabled {
          rules := rules[i := r.(enabled := false, lastState := None)];
          disabled := disabled + [r.id];
        }
      }
      assert old(rules)[..|rules|] == old(rules);
      DisabledIdsExactly(old(rules), ids);
    }

    method Upsert(raw: Rule) returns (r: Result<Rule, AutomationError>)
      modifies this
      ensures rules == Apply(old(rules), Upserted(raw))
      ensures r.Ok? <==> !raw.op.UnknownOperator? && raw.value.Some? && !raw.action.UnknownCommand? && raw.host != ""
      ensures r.Err? ==> r.error == (if raw.op.UnknownOperator? then BadOperator else if raw.value.None? then BadValue
                                     else if raw.action.UnknownCommand? then BadAction else MissingHost)
      ensures r.Ok? ==> r.value.id == raw.id && PositionOf(old(rules), raw.id) < |rules|
                        && r.value == rules[PositionOf(old(rules), raw.id)]
      ensures r.Ok? ==> r.value == raw.(lastFired := r.value.lastFired)
      ensures UniqueIds(old(rules)) ==> UniqueIds(rules)
    {
      r := Validate(raw);
      if r.Err? {
        return;
      }
      var clean := r.value;
      for i := 0 to |rules|
        invariant rules == old(rules) && forall k | 0 <= k < i :: rules[k].id != clean.id
      {
        if rules[i].id == clean.id {
          clean := Replacement(rules[i], clean);
          rules := rules[i := clean];
          return Ok(clean);
        }
      }
      rules := rules + [clean];
    }
  }

  /** One turn of the loop: the rule as it leaves it, whether its plug is called, and whether that succeeds. */
  method EvaluateOne(rule: Rule, socs: map<string, Option<real>>, activeSn: string, plugOk: bool, now: real)
    returns (after: Rule, called: bool, ok: bool)
    ensures var look := Observe(rule, socs, activeSn, plugOk);
            && after == EvaluateRule(rule, look, now)
            && (called <==> look.Known? && look.matches && rule.lastState != Some(true))
            && (ok <==> Fires(rule.lastState, look))
  {
    after, called, ok := rule, false, false;
    if !rule.enabled {
      after := rule.(lastState := None);
      return;
    }
    var soc := TargetSoc(rule, socs, activeSn);
    if soc.None? {
      return;
    }
    var matchesNow := Matches(rule, soc.value);
    if matchesNow && rule.lastState != Some(true) {
      called, ok := true, plugOk;
      after := if ok then rule.(lastFired := Some(now), lastError := false, lastState := Some(true))
               else rule.(lastError := true);
    } else {
      after := rule.(lastState := Some(matchesNow));
    }
  }

  // ---------- runs of the engine ----------

  function RulesAfter(rules: seq<Rule>, es: seq<Event>, n: nat): (after: seq<Rule>)
    requires n <= |es|
    ensures |after| >= |rules|
  {
    if n == 0 then rules else Apply(RulesAfter(rules, es, n - 1), es[n - 1])
  }

  /** `looks` is the run as the rule at position `i` sees it. */
  ghost predicate SeenBy(rules: seq<Rule>, es: seq<Event>, i: nat, looks: seq<Look>)
    requires i < |rules|
  {
    |looks| == |es| && forall n | 0 <= n < |es| :: looks[n] == LookAt(RulesAfter(rules, es, n), es[n], i)
  }

  lemma ApplyProjects(rules: seq<Rule>, e: Event, i: nat)
    requires i < |rules|
    ensures Apply(rules, e)[i].lastState == NextState(rules[i].lastState, LookAt(rules, e, i))
  {
  }

  ghost predicate Projects(rules: seq<Rule>, es: seq<Event>, i: nat, looks: seq<Look>, n: nat)
    requires i < |rules| && n <= |es| && n <= |looks|
  {
    forall m: nat | m <= n :: RulesAfter(rules, es, m)[i].lastState == StateAfter(rules[i].lastState, looks, m)
  }

  lemma ProjectsStep(rules: seq<Rule>, es: seq<Event>, i: nat, looks: seq<Look>, n: nat)
    requires i < |rules| && 0 < n <= |es| && SeenBy(rules, es, i, looks) && Projects(rules, es, i, looks, n - 1)
    ensures Projects(rules, es, i, looks, n)
  {
    ApplyProjects(RulesAfter(rules, es, n - 1), es[n - 1], i);
  }

  lemma {:induction false} ProjectsThroughout(rules: seq<Rule>, es: seq<Event>, i: nat, looks: seq<Look>, n: nat)
    requires i < |rules| && n <= |es| && SeenBy(rules, es, i, looks)
    ensures Projects(rules, es, i, looks, n)
  {
    if n > 0 {
      ProjectsThroughout(rules, es, i, looks, n - 1);
      ProjectsStep(rules, es, i, looks, n);
    }
  }

  lemma RunProjects(rules: seq<Rule>, es: seq<Event>, i: nat, looks: seq<Look>, n: nat)
    requires i < |rules| && n <= |es| && SeenBy(rules, es, i, looks)
    ensures RulesAfter(rules, es, n)[i].lastState == StateAfter(rules[i].lastState, looks, n)
  {
    ProjectsThroughout(rules, es, i, looks, n);
  }

  /**
   * The engine refines the single-rule law for every rule at once: over any run of evaluations,
   * edits and bulk disables, the rule at a position fires in an evaluation exactly when what the run
   * showed that rule says so.
   */
  lemma EngineFiresExactly(rules: seq<Rule>, es: seq<Event>, i: nat, looks: seq<Look>, n: nat)
    requires i < |rules| && n < |es| && SeenBy(rules, es, i, looks)
    ensures FiresIn(RulesAfter(rules, es, n), es[n], i) <==>
            looks[n] == Known(true, true) && !Held(rules[i].lastState, looks, n)
  {
    RunProjects(rules, es, i, looks, n);
    FiresExactly(rules[i].lastState, looks, n);
  }

  // ---------- no rule depends on another ----------

  /** The part of an event that concerns one rule: its device's reading, its own plug call, an edit of its id. */
  datatype Own = Nothing | Ticks(soc: Option<real>, plugOk: bool) | Disables | Edits(raw: Rule)

  function OwnPart(r: Rule, e: Event, i: nat): Own {
    match e
    case Evaluated(socs, active, plug, _) =>
      if socs == map[] then Nothing else Ticks(TargetSoc(r, socs, active), plug(i))
    case DisabledMany(ids) => if r.id in ids then Disables else Nothing
    case Upserted(raw) => if raw.id == r.id then Edits(raw) else Nothing
  }

  /** The same rule but for the time it last fired. */
  predicate SameRule(r: Rule, t: Rule) {
    t == r.(lastFired := t.lastFired)
  }

  lemma ApplyKeepsIds(rules: seq<Rule>, e: Event)
    requires UniqueIds(rules)
    ensures UniqueIds(Apply(rules, e)) && forall i | 0 <= i < |rules| :: Apply(rules, e)[i].id == rules[i].id
  {
    var after := Apply(rules, e);
    forall i | 0 <= i < |rules| ensures after[i].id == rules[i].id {
      if e.Evaluated? && e.socs != map[] {
        var look := Observe(rules[i], e.socs, e.activeSn, e.plug(i));
        assert after[i] == EvaluateRule(rules[i], look, e.now);
      }
    }
    if |after| > |rules| {
      assert after[|rules|].id == e.rule.id && PositionOf(rules, e.rule.id) == |rules|;
    }
  }

  /** What an event does to a rule, from its own part alone. */
  function OwnStep(r: Rule, own: Own): (Rule, bool) {
    match own
    case Nothing => (r, false)
    case Ticks(soc, ok) =>
      var look := if !r.enabled then Disabled else if soc.None? then Unseen else Known(Matches(r, soc.value), ok);
      (EvaluateRule(r, look, 0.0), Fires(r.lastState, look))
    case Disables => (if r.enabled then r.(enabled := false, lastState := None) else r, false)
    case Edits(raw) => (if Validate(raw).Ok? then raw else r, false)
  }

  lemma EditIsOwn(rules: seq<Rule>, raw: Rule, i: nat)
    requires i < |rules| && UniqueIds(rules)
    ensures var e := Upserted(raw);
            SameRule(OwnStep(rules[i], OwnPart(rules[i], e, i)).0, Apply(rules, e)[i])
  {
    if raw.id == rules[i].id {
      assert PositionOf(rules, raw.id) == i;
    }
  }

  lemma StepIsOwn(rules: seq<Rule>, e: Event, i: nat)
    requires i < |rules| && UniqueIds(rules)
    ensures var step := OwnStep(rules[i], OwnPart(rules[i], e, i));
            SameRule(step.0, Apply(rules, e)[i]) && (FiresIn(rules, e, i) <==> step.1)
  {
    if e.Upserted? {
      EditIsOwn(rules, e.rule, i);
    }
  }

  lemma SameRuleSteps(r: Rule, t: Rule, own: Own)
    requires SameRule(r, t)
    ensures SameRule(OwnStep(r, own).0, OwnStep(t, own).0) && OwnStep(r, own).1 == OwnStep(t, own).1
  {
  }

  lemma AlikeStep(a: seq<Rule>, e: Event, i: nat, b: seq<Rule>, f: Event, j: nat)
    requires i < |a| && j < |b| && UniqueIds(a) && UniqueIds(b) && SameRule(a[i], b[j])
    requires OwnPart(a[i], e, i) == OwnPart(b[j], f, j)
    ensures UniqueIds(Apply(a, e)) && UniqueIds(Apply(b, f)) && SameRule(Apply(a, e)[i], Apply(b, f)[j])
    ensures FiresIn(a, e, i) <==> FiresIn(b, f, j)
  {
    ApplyKeepsIds(a, e);
    ApplyKeepsIds(b, f);
    StepIsOwn(a, e, i);
    StepIsOwn(b, f, j);
    SameRuleSteps(a[i], b[j], OwnPart(a[i], e, i));
  }

  /** Two runs, over any rule lists, that show their rules at `i` and `j` the same things. */
  ghost predicate ShownAlike(rules: seq<Rule>, es: seq<Event>, i: nat,
                             others: seq<Rule>, fs: seq<Event>, j: nat, n: nat)
    requires i < |rules| && j < |others| && n <= |es| && n <= |fs|
  {
    forall k | 0 <= k < n ::
      OwnPart(RulesAfter(rules, es, k)[i], es[k], i) == OwnPart(RulesAfter(others, fs, k)[j], fs[k], j)
  }

  /** Both lists have ids of their own and hold the same rule, here at `i` and there at `j`. */
  ghost predicate Alike(a: seq<Rule>, i: nat, b: seq<Rule>, j: nat) {
    i < |a| && j < |b| && UniqueIds(a) && UniqueIds(b) && SameRule(a[i], b[j])
  }

  ghost predicate AlikeThroughout(rules: seq<Rule>, es: seq<Event>, i: nat,
                                  others: seq<Rule>, fs: seq<Event>, j: nat, n: nat)
    requires n <= |es| && n <= |fs|
  {
    forall k: nat | k <= n :: Alike(RulesAfter(rules, es, k), i, RulesAfter(others, fs, k), j)
  }

  lemma AlikeAdvances(rules: seq<Rule>, es: seq<Event>, i: nat, others: seq<Rule>, fs: seq<Event>, j: nat, n: nat)
    requires i < |rules| && j < |others| && 0 < n <= |es| && n <= |fs|
    requires ShownAlike(rules, es, i, others, fs, j, n) && AlikeThroughout(rules, es, i, others, fs, j, n - 1)
    ensures AlikeThroughout(rules, es, i, others, fs, j, n)
  {
    AlikeStep(RulesAfter(rules, es, n - 1), es[n - 1], i, RulesAfter(others, fs, n - 1), fs[n - 1], j);
  }

  lemma {:induction false} RulesStayAlike(rules: seq<Rule>, es: seq<Event>, i: nat,
                                          others: seq<Rule>, fs: seq<Event>, j: nat, n: nat)
    requires i < |rules| && j < |others| && n <= |es| && n <= |fs| && UniqueIds(rules) && UniqueIds(others)
    requires SameRule(rules[i], others[j]) && ShownAlike(rules, es, i, others, fs, j, n)
    ensures AlikeThroughout(rules, es, i, others, fs, j, n)
  {
    if n > 0 {
      RulesStayAlike(rules, es, i, others, fs, j, n - 1);
      AlikeAdvances(rules, es, i, others, fs, j, n);
    }
  }

  /**
   * No rule's firing depends on another rule, device or plug, nor on the clock: two engines that hold
   * the same rule anywhere among others, and show it the same readings of its device, results of its own
   * plug calls, disables and edits of its id, fire it in the same evaluations. Ids are unique.
   */
  lemma FiringIsOwn(rules: seq<Rule>, es: seq<Event>, i: nat, others: seq<Rule>, fs: seq<Event>, j: nat, n: nat)
    requires i < |rules| && j < |others| && n < |es| && n < |fs| && UniqueIds(rules) && UniqueIds(others)
    requires SameRule(rules[i], others[j]) && ShownAlike(rules, es, i, others, fs, j, n + 1)
    ensures FiresIn(RulesAfter(rules, es, n), es[n], i) <==> FiresIn(RulesAfter(others, fs, n), fs[n], j)
  {
    RulesStayAlike(rules, es, i, others, fs, j, n);
    AlikeStep(RulesAfter(rules, es, n), es[n], i, RulesAfter(others, fs, n), fs[n], j);
  }

  /** Bulk disable, rule by rule: off and ready to start afresh if it was on and asked for, else as it was. */
  lemma DisablingIsExact(rules: seq<Rule>, ids: set<string>, i: nat)
    requires i < |rules|
    ensures var was, now := rules[i], Apply(rules, DisabledMany(ids))[i];
            if was.id in ids && was.enabled
            then !now.enabled && now.lastState == None && now.(enabled := true, lastState := was.lastState) == was
            else now == was
  {
  }

  /** An edit replaces the rule of that id in place; the time of its last firing stays unless a new one is given. */
  lemma EditKeepsLastFiring(rules: seq<Rule>, raw: Rule, i: nat)
    requires i < |rules| && UniqueIds(rules) && rules[i].id == raw.id && Validate(raw).Ok?
    ensures var now := Apply(rules, Upserted(raw))[i];
            && now == raw.(lastFired := now.lastFired)
            && (now.lastFired == raw.lastFired || raw.lastFired in {None, Some(0.0)})
            && (raw.lastFired in {None, Some(0.0)} ==> now.lastFired == rules[i].lastFired)
  {
    assert PositionOf(rules, raw.id) == i;
  }

  // ---------- which way the operators point ----------

  /**
   * The five operators are one order seen five ways: complements, bounds included or not, and a band
   * of half a point. A rule without a number, or with another operator, matches nothing.
   */
  lemma OperatorsAgree(r: Rule, soc: real)
    requires r.value.Some?
    ensures Matches(r.(op := Lt), soc) <==> !Matches(r.(op := Ge), soc)
    ensures Matches(r.(op := Gt), soc) <==> !Matches(r.(op := Le), soc)
    ensures Matches(r.(op := Le), soc) && Matches(r.(op := Ge), soc) <==> soc == r.value.value
    ensures Matches(r.(op := Lt), soc) ==> Matches(r.(op := Le), soc) && !Matches(r.(op := Gt), soc)
    ensures Matches(r.(op := Eq), soc) <==> -0.5 <= soc - r.value.value <= 0.5
    ensures !Matches(r.(op := UnknownOperator), soc) && !Matches(r.(value := None), soc)
  {
  }

  /**
   * "Below" means below: what matches at a charge matches at every lower one and somewhere under the
   * threshold, never above it; "above" is the mirror image.
   */
  lemma OperatorsPoint(r: Rule, soc: real, other: real)
    requires r.value.Some?
    ensures r.op in {Lt, Le} && Matches(r, soc) && other <= soc ==> Matches(r, other)
    ensures r.op in {Ge, Gt} && Matches(r, soc) && other >= soc ==> Matches(r, other)
    ensures r.op in {Lt, Le} ==> Matches(r, r.value.value - 1.0) && !Matches(r, r.value.value + 1.0)
    ensures r.op in {Ge, Gt} ==> Matches(r, r.value.value + 1.0) && !Matches(r, r.value.value - 1.0)
    ensures Matches(r, r.value.value) <==> r.op in {Le, Eq, Ge}
  {
  }

  /** The charge stands where the rule's text says: below, at most, within half a point, at least, above. */
  ghost predicate OnItsSide(r: Rule, soc: real) {
    r.value.Some? &&
    var over := soc - r.value.value;
    || (r.op == Lt && 0.0 > over)
    || (r.op == Le && !(over > 0.0))
    || (r.op == Eq && !(over > 0.5) && !(over < -0.5))
    || (r.op == Ge && !(0.0 > over))
    || (r.op == Gt && over > 0.0)
  }

  /** The reading that counts for a rule is that of its own device; a rule without one goes by the active device. */
  ghost predicate Reads(r: Rule, e: Event, soc: real)
    requires e.Evaluated?
  {
    if r.deviceSn == "" then e.activeSn != "" && e.activeSn in e.socs && e.socs[e.activeSn] == Some(soc)
    else r.deviceSn in e.socs && e.socs[r.deviceSn] == Some(soc)
  }

  /**
   * When one evaluation calls one rule's plug, in the rule's own words: the rule is enabled, its edge is
   * unused and its own device (else the active one) reads on the side the rule names. It fires if the call succeeds.
   */
  lemma FiresOnItsSide(rules: seq<Rule>, e: Event, i: nat)
    requires i < |rules| && e.Evaluated?
    ensures CallsIn(rules, e, i) <==>
              && rules[i].enabled && rules[i].lastState != Some(true)
              && exists soc :: Reads(rules[i], e, soc) && OnItsSide(rules[i], soc)
    ensures FiresIn(rules, e, i) <==> CallsIn(rules, e, i) && e.plug(i)
  {
    var soc := TargetSoc(rules[i], e.socs, e.activeSn);
    if soc.Some? {
      assert Reads(rules[i], e, soc.value);
    }
  }

  /** A "below" rule never fires while its device reads above the threshold, nor an "above" rule below it. */
  lemma NeverOnTheOtherSide(rules: seq<Rule>, e: Event, i: nat, soc: real)
    requires i < |rules| && e.Evaluated? && rules[i].value.Some? && Reads(rules[i], e, soc)
    ensures rules[i].op in {Lt, Le} && soc > rules[i].value.value ==> !FiresIn(rules, e, i)
    ensures rules[i].op in {Ge, Gt} && soc < rules[i].value.value ==> !FiresIn(rules, e, i)
  {
    FiresOnItsSide(rules, e, i);
  }

  /** What an evaluation writes into a rule: the edge, the stamp of a firing, the error of a failed call; no setting. */
  lemma EvaluationWrites(rules: seq<Rule>, e: Event, i: nat)
    requires i < |rules| && e.Evaluated?
    ensures var was, now, fires := rules[i], Apply(rules, e)[i], FiresIn(rules, e, i);
            var failed := CallsIn(rules, e, i) && !e.plug(i);
            && now.(lastState := was.lastState, lastFired := was.lastFired, lastError := was.lastError) == was
            && now.lastFired == (if fires then Some(e.now) else was.lastFired)
            && now.lastError == (failed || (was.lastError && !fires))
            && (now.lastState == Some(true) ==> fires || was.lastState == Some(true))
            && (fires ==> now.lastState == Some(true))
  {
    FiresOnItsSide(rules, e, i);
  }
}
