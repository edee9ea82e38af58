/**
 * The funnel service (funnel/internal/service/service.go): per user and funnel a small state in Redis follows the steps
 * of the funnel, and a conversion is emitted when the last one arrives inside the window.
 */
module Funnel {
  import opened Common

  datatype Definition = Definition(id: string, app: string, steps: seq<string>, windowSeconds: int)

  /** The parts of an enriched event the service reads; `at` is EventTime in milliseconds, set by the client. */
  datatype Event = Event(app: string, user: string, name: string, at: int)

  datatype State = State(funnel: string, user: string, completed: nat, times: seq<int>, converted: bool)

  datatype Conversion = Conversion(app: string, user: string, funnel: string, steps: nat, converted: bool, at: int)

  /** What evaluateFunnel stores, if anything, and what it returns, if anything. */
  datatype Outcome = Outcome(save: Option<State>, conversion: Option<Conversion>)

  const NOTHING := Outcome(None, None)

  function WindowMs(f: Definition): int {
    f.windowSeconds * 1000
  }

  function Fresh(f: Definition, user: string): State {
    State(f.id, user, 0, [], false)
  }

  function Loaded(f: Definition, user: string, stored: Option<State>): State {
    if stored.Some? then stored.value else Fresh(f, user)
  }

  /** evaluateFunnel, given what Redis returned. */
  function Evaluate(f: Definition, stored: Option<State>, e: Event): Outcome {
    var s := Loaded(f, e.user, stored);
    if s.converted || s.completed >= |f.steps| || f.steps[s.completed] != e.name then NOTHING
    else
      var times := s.times + [e.at];
      if |times| > 1 && e.at - times[0] > WindowMs(f) then Outcome(Some(Fresh(f, e.user)), None)
      else
        var next := State(s.funnel, s.user, s.completed + 1, times, s.completed + 1 == |f.steps|);
        Outcome(Some(next), Some(Conversion(e.app, e.user, f.id, next.completed, next.converted, e.at)))
  }

  /** Definitions count seconds, events milliseconds. */
  lemma WindowInSeconds(f: Definition)
    ensures WindowMs(f) == f.windowSeconds * 1000
  {
  }

  // ---------------------------------------------------------------- ordered matches

  /** `ps` are increasing positions of `s` at which the first |ps| steps occur. */
  ghost predicate Matches(steps: seq<string>, s: seq<Event>, ps: seq<nat>) {
    && |ps| <= |steps|
    && (forall i :: 0 <= i < |ps| ==> ps[i] < |s| && s[ps[i]].name == steps[i])
    && (forall i, j :: 0 <= i < j < |ps| ==> ps[i] < ps[j])
  }

  /** Every matched event is at most `window` milliseconds later than the first. */
  ghost predicate Within(s: seq<Event>, ps: seq<nat>, window: int) {
    forall i :: 0 < i < |ps| && ps[0] < |s| && ps[i] < |s| ==> s[ps[i]].at - s[ps[0]].at <= window
  }

  /** The steps are a subsequence of the event names. */
  ghost predicate Subsequence(steps: seq<string>, s: seq<Event>) {
    exists ps: seq<nat> :: Matches(steps, s, ps) && |ps| == |steps|
  }

  ghost predicate WindowedMatch(f: Definition, s: seq<Event>) {
    exists ps: seq<nat> :: Matches(f.steps, s, ps) && |ps| == |f.steps| && Within(s, ps, f.windowSeconds * 1000)
  }

  /** The positions at which steps are first reached in order. */
  function Earliest(steps: seq<string>, s: seq<Event>): (ps: seq<nat>)
    ensures |ps| <= |steps| && forall i :: 0 <= i < |ps| ==> ps[i] < |s|
  {
    if s == [] then []
    else
      var n := |s| - 1;
      var ps := Earliest(steps, s[..n]);
      if |ps| < |steps| && steps[|ps|] == s[n].name then ps + [n] else ps
  }

  lemma EarliestSnoc(steps: seq<string>, s: seq<Event>, e: Event)
    ensures var ps := Earliest(steps, s);
            Earliest(steps, s + [e]) == if |ps| < |steps| && steps[|ps|] == e.name then ps + [|s|] else ps
  {
    assert (s + [e])[..|s|] == s;
  }

  lemma MatchesExtend(steps: seq<string>, s: seq<Event>, ps: seq<nat>, e: Event)
    requires Matches(steps, s, ps)
    ensures Matches(steps, s + [e], ps)
    ensures |ps| < |steps| && steps[|ps|] == e.name ==> Matches(steps, s + [e], ps + [|s|])
  {
  }

  lemma {:induction false} EarliestMatches(steps: seq<string>, s: seq<Event>)
    ensures Matches(steps, s, Earliest(steps, s))
  {
    if s != [] {
      var front := s[..|s| - 1];
      EarliestMatches(steps, front);
      assert s == front + [s[|s| - 1]];
      MatchesExtend(steps, front, Earliest(steps, front), s[|s| - 1]);
    }
  }

  /** No ordered match reaches further, and each of its positions is at or after the earliest one. */
  lemma {:induction false} EarliestIsLongest(steps: seq<string>, s: seq<Event>, ps: seq<nat>)
    requires Matches(steps, s, ps)
    ensures |ps| <= |Earliest(steps, s)|
    ensures forall i :: 0 <= i < |ps| ==> Earliest(steps, s)[i] <= ps[i]
  {
    assert ps != [] ==> ps[0] < |s|;
    if s != [] {
      var n := |s| - 1;
      var front := s[..n];
      var es := Earliest(steps, front);
      if ps != [] && ps[|ps| - 1] == n {
        var init := ps[..|ps| - 1];
        assert Matches(steps, front, init);
        EarliestIsLongest(steps, front, init);
        assert |es| == |init| ==> Earliest(steps, s) == es + [n];
        assert forall i :: 0 <= i < |init| ==> es[i] <= init[i] == ps[i];
      } else {
        BeforeLast(steps, s, ps);
        EarliestIsLongest(steps, front, ps);
      }
    }
  }

  lemma BeforeLast(steps: seq<string>, s: seq<Event>, ps: seq<nat>)
    requires s != [] && Matches(steps, s, ps) && (ps == [] || ps[|ps| - 1] != |s| - 1)
    ensures Matches(steps, s[..|s| - 1], ps)
  {
    if ps != [] {
      forall i | 0 <= i < |ps| ensures ps[i] < |s| - 1 {
        if i < |ps| - 1 { assert ps[i] < ps[|ps| - 1]; }
      }
    }
  }

  // ---------------------------------------------------------------- one user and one funnel, any loss of state

  datatype Out = Out(state: Option<State>, emitted: seq<Option<Conversion>>)

  /** `lost[i]` says that Redis no longer had the state when event `i` arrived. */
  function Run(f: Definition, events: seq<Event>, lost: seq<bool>): Out
    requires |lost| == |events|
  {
    if events == [] then Out(None, [])
    else
      var n := |events| - 1;
      var before := Run(f, events[..n], lost[..n]);
      var stored := if lost[n] then None else before.state;
      var out := Evaluate(f, stored, events[n]);
      Out(if out.save.Some? then out.save else stored, before.emitted + [out.conversion])
  }

  /** `e` is the next step, but later than the window allows after the first one. */
  predicate Expires(f: Definition, s: seq<Event>, e: Event) {
    var ps := Earliest(f.steps, s);
    0 < |ps| < |f.steps| && f.steps[|ps|] == e.name && e.at - s[ps[0]].at > WindowMs(f)
  }

  /** Where the present attempt starts: after the last expiry, at the last loss. */
  function Start(f: Definition, events: seq<Event>, lost: seq<bool>): (k: nat)
    requires |lost| == |events|
    ensures k <= |events|
  {
    if events == [] then 0
    else
      var n := |events| - 1;
      var k := if lost[n] then n else Start(f, events[..n], lost[..n]);
      if Expires(f, events[k..n], events[n]) then n + 1 else k
  }

  function TimesAt(s: seq<Event>, ps: seq<nat>): seq<int>
    requires forall i :: 0 <= i < |ps| ==> ps[i] < |s|
  {
    seq(|ps|, i requires 0 <= i < |ps| => s[ps[i]].at)
  }

  /** The state an attempt has reached, from its events alone. */
  function StateOf(f: Definition, user: string, s: seq<Event>): State {
    var ps := Earliest(f.steps, s);
    State(f.id, user, |ps|, TimesAt(s, ps), ps != [] && |ps| == |f.steps|)
  }

  /** What the last event of an attempt emits. */
  function EmitOf(f: Definition, s: seq<Event>, e: Event): Option<Conversion> {
    var before, after := Earliest(f.steps, s), Earliest(f.steps, s + [e]);
    if Expires(f, s, e) || before == after then None
    else Some(Conversion(e.app, e.user, f.id, |after|, |after| == |f.steps|, e.at))
  }

  lemma TimesSnoc(steps: seq<string>, s: seq<Event>, e: Event)
    ensures var ps := Earliest(steps, s);
            TimesAt(s + [e], Earliest(steps, s + [e]))
            == if |ps| < |steps| && steps[|ps|] == e.name then TimesAt(s, ps) + [e.at] else TimesAt(s, ps)
  {
    EarliestSnoc(steps, s, e);
  }

  /** One event of an attempt. */
  lemma EvaluateAttempt(f: Definition, stored: Option<State>, s: seq<Event>, e: Event)
    requires Loaded(f, e.user, stored) == StateOf(f, e.user, s)
    ensures var out := Evaluate(f, stored, e);
            && Loaded(f, e.user, if out.save.Some? then out.save else stored)
               == StateOf(f, e.user, if Expires(f, s, e) then [] else s + [e])
            && out.conversion == EmitOf(f, s, e)
  {
    var ps := Earliest(f.steps, s);
    EarliestSnoc(f.steps, s, e);
    if |ps| < |f.steps| && f.steps[|ps|] == e.name {
      NextStepAttempt(f, stored, s, e);
    } else {
      OtherEventAttempt(f, stored, s, e);
    }
  }

  /** An event that is not the next step changes nothing. */
  lemma OtherEventAttempt(f: Definition, stored: Option<State>, s: seq<Event>, e: Event)
    requires Loaded(f, e.user, stored) == StateOf(f, e.user, s)
    requires var ps := Earliest(f.steps, s); |ps| == |f.steps| || f.steps[|ps|] != e.name
    ensures Evaluate(f, stored, e) == NOTHING && !Expires(f, s, e) && EmitOf(f, s, e) == None
    ensures StateOf(f, e.user, s) == StateOf(f, e.user, s + [e])
  {
    TimesSnoc(f.steps, s, e);
    EarliestSnoc(f.steps, s, e);
    hide Earliest, TimesAt, WindowMs;
  }

  /** evaluateFunnel on the next step, in terms of the stored counter and times. */
  lemma EvaluateNextStep(f: Definition, stored: Option<State>, e: Event, n: nat, times: seq<int>)
    requires Loaded(f, e.user, stored) == State(f.id, e.user, n, times, false) && n < |f.steps| && f.steps[n] == e.name
    ensures Evaluate(f, stored, e)
            == if times != [] && e.at - times[0] > WindowMs(f) then Outcome(Some(Fresh(f, e.user)), None)
               else Outcome(Some(State(f.id, e.user, n + 1, times + [e.at], n + 1 == |f.steps|)),
                            Some(Conversion(e.app, e.user, f.id, n + 1, n + 1 == |f.steps|, e.at)))
  {
    if times != [] { assert (times + [e.at])[0] == times[0]; }
  }

  lemma NextStepAttempt(f: Definition, stored: Option<State>, s: seq<Event>, e: Event)
    requires Loaded(f, e.user, stored) == StateOf(f, e.user, s)
    requires var ps := Earliest(f.steps, s); |ps| < |f.steps| && f.steps[|ps|] == e.name
    ensures var out := Evaluate(f, stored, e);
            && out.save == Some(StateOf(f, e.user, if Expires(f, s, e) then [] else s + [e]))
            && out.conversion == EmitOf(f, s, e)
  {
    hide Evaluate, Loaded, WindowMs, Earliest;
    var ps, times := Earliest(f.steps, s), TimesAt(s, Earliest(f.steps, s));
    EvaluateNextStep(f, stored, e, |ps|, times);
    TimesSnoc(f.steps, s, e);
    EarliestSnoc(f.steps, s, e);
    FreshIsEmpty(f, e.user);
    assert ps != [] ==> times[0] == s[ps[0]].at;
    hide TimesAt, Fresh;
  }

  ghost predicate OneUser(events: seq<Event>, user: string) {
    forall i :: 0 <= i < |events| ==> events[i].user == user
  }

  lemma RunSnoc(f: Definition, events: seq<Event>, lost: seq<bool>, e: Event, l: bool)
    requires |lost| == |events|
    ensures var before := Run(f, events, lost);
            var stored := if l then None else before.state;
            var out := Evaluate(f, stored, e);
            Run(f, events + [e], lost + [l])
            == Out(if out.save.Some? then out.save else stored, before.emitted + [out.conversion])
  {
    hide Evaluate;
    assert (events + [e])[..|events|] == events && (lost + [l])[..|lost|] == lost;
  }

  lemma StartSnoc(f: Definition, events: seq<Event>, lost: seq<bool>, e: Event, l: bool)
    requires |lost| == |events|
    ensures var k := if l then |events| else Start(f, events, lost);
            Start(f, events + [e], lost + [l]) == if Expires(f, events[k..], e) then |events| + 1 else k
  {
    hide Expires;
    assert (events + [e])[..|events|] == events && (lost + [l])[..|lost|] == lost;
    var k := if l then |events| else Start(f, events, lost);
    assert (events + [e])[k..|events|] == events[k..];
  }

  /** The events of the present attempt. */
  function Attempt(f: Definition, events: seq<Event>, lost: seq<bool>): seq<Event>
    requires |lost| == |events|
  {
    events[Start(f, events, lost)..]
  }

  lemma AttemptSnoc(f: Definition, events: seq<Event>, lost: seq<bool>, e: Event, l: bool)
    requires |lost| == |events|
    ensures var s := if l then [] else Attempt(f, events, lost);
            Attempt(f, events + [e], lost + [l]) == if Expires(f, s, e) then [] else s + [e]
  {
    StartSnoc(f, events, lost, e, l);
    hide Expires, Start;
    var k := if l then |events| else Start(f, events, lost);
    assert (events + [e])[k..] == events[k..] + [e];
    assert l ==> events[k..] == [];
  }

  /**
   * After any run, whatever Redis loses: the completed steps are the longest prefix of Steps that occurs in order in
   * the events of the present attempt, and the stored times are those of its earliest occurrence.
   */
  lemma {:induction false} StateIsLongestMatch(f: Definition, user: string, events: seq<Event>, lost: seq<bool>)
    requires |lost| == |events| && OneUser(events, user)
    ensures var s := Attempt(f, events, lost);
            && Loaded(f, user, Run(f, events, lost).state) == StateOf(f, user, s)
            && |Run(f, events, lost).emitted| == |events|
  {
    if events != [] {
      var n := |events| - 1;
      var front, e, lfront, l := events[..n], events[n], lost[..n], lost[n];
      assert events == front + [e] && lost == lfront + [l];
      StateIsLongestMatch(f, user, front, lfront);
      RunSnoc(f, front, lfront, e, l);
      AttemptSnoc(f, front, lfront, e, l);
      FreshIsEmpty(f, user);
      var s := if l then [] else Attempt(f, front, lfront);
      EvaluateAttempt(f, if l then None else Run(f, front, lfront).state, s, e);
    } else {
      FreshIsEmpty(f, user);
    }
  }

  lemma FreshIsEmpty(f: Definition, user: string)
    ensures StateOf(f, user, []) == Fresh(f, user)
  {
    assert Earliest(f.steps, []) == [];
  }

  // ---------------------------------------------------------------- soundness

  lemma WithinExtend(s: seq<Event>, ps: seq<nat>, window: int, e: Event)
    requires (forall i :: 0 <= i < |ps| ==> ps[i] < |s|) && Within(s, ps, window)
    requires ps != [] ==> e.at - s[ps[0]].at <= window
    ensures Within(s + [e], ps + [|s|], window)
  {
    var t, qs := s + [e], ps + [|s|];
    forall i | 0 < i < |qs| && qs[0] < |t| && qs[i] < |t| ensures t[qs[i]].at - t[qs[0]].at <= window {
      if i < |ps| { assert qs[i] == ps[i] && qs[0] == ps[0]; }
    }
  }

  lemma WithinKept(s: seq<Event>, ps: seq<nat>, window: int, e: Event)
    requires (forall i :: 0 <= i < |ps| ==> ps[i] < |s|) && Within(s, ps, window)
    ensures Within(s + [e], ps, window)
  {
  }

  /** Under any loss, the steps of the present attempt lie within the window. */
  lemma {:induction false} AttemptIsWithin(f: Definition, events: seq<Event>, lost: seq<bool>)
    requires |lost| == |events|
    ensures Within(Attempt(f, events, lost), Earliest(f.steps, Attempt(f, events, lost)), WindowMs(f))
  {
    if events != [] {
      var n := |events| - 1;
      var front, e, lfront, l := events[..n], events[n], lost[..n], lost[n];
      assert events == front + [e] && lost == lfront + [l];
      AttemptIsWithin(f, front, lfront);
      AttemptSnoc(f, front, lfront, e, l);
      var s := if l then [] else Attempt(f, front, lfront);
      StepIsWithin(f, s, e);
    }
  }

  lemma StepIsWithin(f: Definition, s: seq<Event>, e: Event)
    requires Within(s, Earliest(f.steps, s), WindowMs(f))
    ensures !Expires(f, s, e) ==> Within(s + [e], Earliest(f.steps, s + [e]), WindowMs(f))
  {
    var ps := Earliest(f.steps, s);
    EarliestSnoc(f.steps, s, e);
    hide Earliest;
    if |ps| < |f.steps| && f.steps[|ps|] == e.name {
      if !Expires(f, s, e) { WithinExtend(s, ps, WindowMs(f), e); }
    } else {
      WithinKept(s, ps, WindowMs(f), e);
    }
  }

  function Shift(ps: seq<nat>, k: nat): (qs: seq<nat>)
    ensures |qs| == |ps|
  {
    seq(|ps|, i requires 0 <= i < |ps| => ps[i] + k)
  }

  lemma ShiftMatches(steps: seq<string>, events: seq<Event>, k: nat, ps: seq<nat>, window: int)
    requires k <= |events| && Matches(steps, events[k..], ps) && Within(events[k..], ps, window)
    ensures Matches(steps, events, Shift(ps, k)) && Within(events, Shift(ps, k), window)
  {
    var qs := Shift(ps, k);
    forall i | 0 <= i < |ps| ensures qs[i] < |events| && events[qs[i]] == events[k..][ps[i]] {
    }
  }

  /** The history shows an ordered match of the first `m` steps inside the window, ending with its last event. */
  ghost predicate Witnessed(f: Definition, events: seq<Event>, m: nat) {
    exists ps: seq<nat> ::
      && Matches(f.steps, events, ps) && |ps| == m && Within(events, ps, f.windowSeconds * 1000)
      && 0 < m && ps[m - 1] == |events| - 1
  }

  /** What the last event emits, and the attempt it belongs to. */
  lemma LastEmission(f: Definition, user: string, front: seq<Event>, lfront: seq<bool>, e: Event, l: bool)
    requires |lfront| == |front| && OneUser(front + [e], user)
    ensures var s := if l then [] else Attempt(f, front, lfront);
            && Run(f, front + [e], lfront + [l]).emitted == Run(f, front, lfront).emitted + [EmitOf(f, s, e)]
            && |Run(f, front, lfront).emitted| == |front|
  {
    assert front == (front + [e])[..|front|] && e == (front + [e])[|front|];
    StateIsLongestMatch(f, user, front, lfront);
    RunSnoc(f, front, lfront, e, l);
    FreshIsEmpty(f, user);
    var s := if l then [] else Attempt(f, front, lfront);
    hide Run, Attempt, Evaluate, StateOf;
    EvaluateAttempt(f, if l then None else Run(f, front, lfront).state, s, e);
  }

  /** What is emitted counts the matched steps, the last of which is the event itself. */
  lemma EmitCounts(f: Definition, s: seq<Event>, e: Event)
    requires EmitOf(f, s, e).Some?
    ensures var ps := Earliest(f.steps, s + [e]);
            && EmitOf(f, s, e).value.steps == |ps| > 0 && ps[|ps| - 1] == |s|
            && (EmitOf(f, s, e).value.converted <==> |ps| == |f.steps|)
  {
    EarliestSnoc(f.steps, s, e);
    hide Earliest, Expires;
  }

  lemma WitnessedBy(f: Definition, events: seq<Event>, m: nat, ps: seq<nat>)
    requires Matches(f.steps, events, ps) && |ps| == m && Within(events, ps, WindowMs(f))
    requires 0 < m && ps[m - 1] == |events| - 1
    ensures Witnessed(f, events, m)
  {
  }

  lemma EmissionShown(f: Definition, events: seq<Event>, k: nat, s: seq<Event>, e: Event)
    requires k <= |events| && events[k..] == s + [e]
    requires Within(s + [e], Earliest(f.steps, s + [e]), WindowMs(f)) && EmitOf(f, s, e).Some?
    ensures Witnessed(f, events, EmitOf(f, s, e).value.steps)
  {
    var ps := Earliest(f.steps, s + [e]);
    EmitCounts(f, s, e);
    EarliestMatches(f.steps, s + [e]);
    WindowInSeconds(f);
    hide Earliest, EmitOf, Matches, Within, Witnessed, WindowMs;
    ShiftMatches(f.steps, events, k, ps, WindowMs(f));
    var qs := Shift(ps, k);
    assert qs[|qs| - 1] == ps[|ps| - 1] + k;
    WitnessedBy(f, events, |ps|, qs);
  }

  ghost predicate Sound(f: Definition, user: string, events: seq<Event>, c: Option<Conversion>) {
    c.Some? ==> Witnessed(f, events, c.value.steps) && c.value.funnel == f.id && c.value.user == user
                && (c.value.converted <==> c.value.steps == |f.steps|)
                && events != [] && c.value.app == events[|events| - 1].app && c.value.at == events[|events| - 1].at
  }

  lemma LastEmissionIsSound(f: Definition, user: string, front: seq<Event>, lfront: seq<bool>, e: Event, l: bool)
    requires |lfront| == |front| && OneUser(front + [e], user)
    ensures Sound(f, user, front + [e], EmitOf(f, if l then [] else Attempt(f, front, lfront), e))
  {
    var s := if l then [] else Attempt(f, front, lfront);
    var events := front + [e];
    assert e == events[|front|];
    if EmitOf(f, s, e).Some? {
      AttemptSnoc(f, front, lfront, e, l);
      AttemptIsWithin(f, events, lfront + [l]);
      EmitNames(f, s, e);
      EmitCounts(f, s, e);
      hide Expires, EmitOf, Earliest, Within, Witnessed, WindowMs;
      EmissionShown(f, events, Start(f, events, lfront + [l]), s, e);
    }
  }

  lemma EmitNames(f: Definition, s: seq<Event>, e: Event)
    requires EmitOf(f, s, e).Some?
    ensures !Expires(f, s, e)
    ensures EmitOf(f, s, e).value.funnel == f.id && EmitOf(f, s, e).value.user == e.user
    ensures EmitOf(f, s, e).value.app == e.app && EmitOf(f, s, e).value.at == e.at
  {
    hide Expires, Earliest;
  }

  /**
   * Soundness, under any loss of state: an emitted event reports an ordered match of that many steps in the history up
   * to that event, with every matched time within the window of the first; for a conversion, of all the steps.
   */
  lemma {:induction false} EmissionsAreSound(f: Definition, user: string, events: seq<Event>, lost: seq<bool>, i: nat)
    requires |lost| == |events| && OneUser(events, user) && i < |events|
    ensures |Run(f, events, lost).emitted| == |events|
    ensures Sound(f, user, events[..i + 1], Run(f, events, lost).emitted[i])
  {
    hide Run, Sound, Attempt, EmitOf, OneUser;
    var n := |events| - 1;
    var front, e, lfront, l := events[..n], events[n], lost[..n], lost[n];
    assert events == front + [e] && lost == lfront + [l];
    OneUserFront(front, e, user);
    LastEmission(f, user, front, lfront, e, l);
    if i == n {
      assert events[..i + 1] == events;
      LastEmissionIsSound(f, user, front, lfront, e, l);
    } else {
      EmissionsAreSound(f, user, front, lfront, i);
      assert front[..i + 1] == events[..i + 1];
    }
  }

  lemma OneUserFront(front: seq<Event>, e: Event, user: string)
    requires OneUser(front + [e], user)
    ensures OneUser(front, user)
  {
    assert forall i :: 0 <= i < |front| ==> front[i] == (front + [e])[i];
  }

  function Completed(o: Option<State>): nat {
    if o.Some? then o.value.completed else 0
  }

  /** An event is reported exactly when it completes a step: whatever was lost, the count it reports is one more. */
  lemma EmitsOnProgress(f: Definition, events: seq<Event>, lost: seq<bool>, e: Event, l: bool)
    requires |lost| == |events|
    ensures var before, after := Run(f, events, lost), Run(f, events + [e], lost + [l]);
            var was := if l then 0 else Completed(before.state);
            && |after.emitted| == |before.emitted| + 1 && after.emitted[..|before.emitted|] == before.emitted
            && (after.emitted[|before.emitted|].Some? <==> Completed(after.state) > was)
            && (after.emitted[|before.emitted|].Some? ==>
                  after.emitted[|before.emitted|].value.steps == Completed(after.state) == was + 1)
  {
    RunSnoc(f, events, lost, e, l);
    hide Run;
  }

  // ---------------------------------------------------------------- completeness

  function NoLoss(n: nat): (r: seq<bool>)
    ensures |r| == n
  {
    seq(n, _ => false)
  }

  lemma NoLossSnoc(n: nat)
    ensures NoLoss(n + 1) == NoLoss(n) + [false]
  {
  }

  function Converted(f: Definition, events: seq<Event>): bool {
    var state := Run(f, events, NoLoss(|events|)).state;
    state.Some? && state.value.converted
  }

  /** While no attempt has expired, a user has converted exactly when Steps is a subsequence of the event names. */
  lemma ConvertedIffSubsequence(f: Definition, user: string, events: seq<Event>)
    requires OneUser(events, user) && Start(f, events, NoLoss(|events|)) == 0
    ensures Converted(f, events) <==> f.steps != [] && Subsequence(f.steps, events)
    ensures Converted(f, events) <==> f.steps != [] && WindowedMatch(f, events)
  {
    var none := NoLoss(|events|);
    StateIsLongestMatch(f, user, events, none);
    AttemptIsWithin(f, events, none);
    assert events[0..] == events;
    EarliestMatches(f.steps, events);
    hide Run, Start, Earliest;
    if Subsequence(f.steps, events) {
      var ps: seq<nat> :| Matches(f.steps, events, ps) && |ps| == |f.steps|;
      EarliestIsLongest(f.steps, events, ps);
    }
  }

  /** No later event time exceeds an earlier one by more than the window. */
  ghost predicate SpreadWithin(events: seq<Event>, window: int) {
    forall i, j :: 0 <= i < j < |events| ==> events[j].at - events[i].at <= window
  }

  lemma {:induction false} NothingExpires(f: Definition, events: seq<Event>)
    requires SpreadWithin(events, f.windowSeconds * 1000)
    ensures Start(f, events, NoLoss(|events|)) == 0
  {
    if events != [] {
      var n := |events| - 1;
      var front, e := events[..n], events[n];
      assert events == front + [e];
      NothingExpires(f, front);
      NoLossSnoc(n);
      StartSnoc(f, front, NoLoss(n), e, false);
      assert front[0..] == front;
      hide Start;
      var ps := Earliest(f.steps, front);
      if ps != [] { assert events[n].at - events[ps[0]].at <= WindowMs(f); }
    }
  }

  /** Inside the window the incremental processor finds a conversion exactly when there is one. */
  lemma CompleteInsideWindow(f: Definition, user: string, events: seq<Event>)
    requires OneUser(events, user) && SpreadWithin(events, f.windowSeconds * 1000)
    ensures Converted(f, events) <==> f.steps != [] && Subsequence(f.steps, events)
  {
    NothingExpires(f, events);
    ConvertedIffSubsequence(f, user, events);
  }

  function CountConversions(emitted: seq<Option<Conversion>>): nat {
    if emitted == [] then 0
    else
      var c := emitted[|emitted| - 1];
      CountConversions(emitted[..|emitted| - 1]) + if c.Some? && c.value.converted then 1 else 0
  }

  lemma CountSnoc(emitted: seq<Option<Conversion>>, c: Option<Conversion>)
    ensures CountConversions(emitted + [c])
            == CountConversions(emitted) + if c.Some? && c.value.converted then 1 else 0
  {
    assert (emitted + [c])[..|emitted|] == emitted;
  }

  function CountLosses(lost: seq<bool>): nat {
    if lost == [] then 0 else CountLosses(lost[..|lost| - 1]) + if lost[|lost| - 1] then 1 else 0
  }

  lemma EvaluateFlag(f: Definition, stored: Option<State>, e: Event)
    ensures var out := Evaluate(f, stored, e);
            var after := if out.save.Some? then out.save else stored;
            var was, now := stored.Some? && stored.value.converted, after.Some? && after.value.converted;
            && (was ==> out == NOTHING)
            && (now <==> was || (out.conversion.Some? && out.conversion.value.converted))
  {
  }

  /** A user converts once, and once more at most for every loss of state. */
  lemma {:induction false} ConvertsOnce(f: Definition, events: seq<Event>, lost: seq<bool>)
    requires |lost| == |events|
    ensures var out := Run(f, events, lost);
            var now := if out.state.Some? && out.state.value.converted then 1 else 0;
            now <= CountConversions(out.emitted) <= CountLosses(lost) + now
  {
    if events != [] {
      var n := |events| - 1;
      var front, e, lfront, l := events[..n], events[n], lost[..n], lost[n];
      assert events == front + [e] && lost == lfront + [l];
      ConvertsOnce(f, front, lfront);
      RunSnoc(f, front, lfront, e, l);
      var before := Run(f, front, lfront);
      var stored := if l then None else before.state;
      EvaluateFlag(f, stored, e);
      CountSnoc(before.emitted, Evaluate(f, stored, e).conversion);
    }
  }

  lemma {:induction false} NoLossCount(n: nat)
    ensures CountLosses(NoLoss(n)) == 0
  {
    if n > 0 {
      NoLossCount(n - 1);
      NoLossSnoc(n - 1);
      assert NoLoss(n)[..n - 1] == NoLoss(n - 1);
    }
  }

  lemma EmittedOnce(f: Definition, events: seq<Event>)
    ensures CountConversions(Run(f, events, NoLoss(|events|)).emitted) == if Converted(f, events) then 1 else 0
  {
    ConvertsOnce(f, events, NoLoss(|events|));
    NoLossCount(|events|);
  }

  // ---------------------------------------------------------------- beyond the window

  /** The late steps after a first step that came too early: first @ 0, first @ late, the rest within the window of that. */
  function Overtaken(f: Definition, user: string): (events: seq<Event>)
    requires f.steps != []
    ensures |events| == |f.steps| + 1
  {
    var w := WindowMs(f);
    var late := if w < 0 then 1 else w + 1;
    [Event(f.app, user, f.steps[0], 0), Event(f.app, user, f.steps[0], late)]
    + seq(|f.steps| - 1, i requires 0 <= i < |f.steps| - 1 => Event(f.app, user, f.steps[i + 1], late + w))
  }

  lemma OvertakenAt(f: Definition, user: string, i: nat)
    requires i < |f.steps|
    ensures var events, w := Overtaken(f, user), WindowMs(f);
            var late := if w < 0 then 1 else w + 1;
            events[i + 1] == Event(f.app, user, f.steps[i], if i == 0 then late else late + w)
  {
  }

  lemma OvertakenIsOneUser(f: Definition, user: string)
    requires f.steps != []
    ensures OneUser(Overtaken(f, user), user)
  {
    hide WindowMs;
    forall i | 0 <= i < |Overtaken(f, user)| ensures Overtaken(f, user)[i].user == user {
      if i > 0 { OvertakenAt(f, user, i - 1); }
    }
  }

  lemma OvertakenMatches(f: Definition, user: string)
    requires f.steps != []
    ensures OneUser(Overtaken(f, user), user) && WindowedMatch(f, Overtaken(f, user))
  {
    hide Overtaken, WindowMs;
    OvertakenIsOneUser(f, user);
    var events := Overtaken(f, user);
    var ps: seq<nat> := seq(|f.steps|, i requires 0 <= i < |f.steps| => i + 1);
    forall i | 0 <= i < |ps| ensures events[ps[i]].name == f.steps[i] {
      OvertakenAt(f, user, i);
    }
    WindowInSeconds(f);
    forall i | 0 < i < |ps| ensures events[ps[i]].at - events[ps[0]].at <= WindowMs(f) {
      OvertakenAt(f, user, 0);
      OvertakenAt(f, user, i);
    }
    assert Matches(f.steps, events, ps) && Within(events, ps, f.windowSeconds * 1000);
  }

  /** An attempt never has more steps than events. */
  lemma {:induction false} StepsBounded(steps: seq<string>, s: seq<Event>)
    ensures |Earliest(steps, s)| <= |s|
  {
    if s != [] {
      StepsBounded(steps, s[..|s| - 1]);
    }
  }

  lemma {:induction false} StartGrows(f: Definition, events: seq<Event>, k: nat)
    requires k <= |events|
    ensures Start(f, events[..k], NoLoss(k)) <= Start(f, events, NoLoss(|events|))
  {
    hide Start, Expires;
    if k < |events| {
      var front, e := events[..|events| - 1], events[|events| - 1];
      assert events == front + [e] && front[..k] == events[..k];
      StartGrows(f, front, k);
      NoLossSnoc(|front|);
      StartSnoc(f, front, NoLoss(|front|), e, false);
    } else {
      assert events[..k] == events;
    }
  }

  lemma EarliestOfTwo(steps: seq<string>, a: Event, b: Event)
    requires |steps| > 1 && a.name == b.name == steps[0]
    ensures Earliest(steps, [a]) == [0]
    ensures Earliest(steps, [a, b]) == if steps[1] == b.name then [0, 1] else [0]
  {
    EarliestSnoc(steps, [], a);
    EarliestSnoc(steps, [a], b);
    assert [] + [a] == [a] && [a] + [b] == [a, b];
  }

  lemma OneStart(f: Definition, a: Event)
    ensures Start(f, [a], [false]) == 0
  {
    StartSnoc(f, [], [], a, false);
    hide Start;
    assert [] + [a] == [a] && [] + [false] == [false];
    NoAnchorYet(f, a);
  }

  lemma NoAnchorYet(f: Definition, e: Event)
    ensures !Expires(f, [], e) && Start(f, [], []) == 0
  {
  }

  lemma FirstStepsStart(f: Definition, a: Event, b: Event)
    requires |f.steps| > 1 && a.name == b.name == f.steps[0] && b.at - a.at > WindowMs(f)
    ensures Start(f, [a, b], [false, false]) == if f.steps[1] == b.name then 2 else 0
  {
    OneStart(f, a);
    StartSnoc(f, [a], [false], b, false);
    EarliestOfTwo(f.steps, a, b);
    hide Start, Earliest;
    assert [a] + [b] == [a, b] && [a][0..] == [a] && [false] + [false] == [false, false];
  }

  /** The first of two first steps is still the anchor when the second step arrives, too late for it. */
  lemma LateStepExpires(f: Definition, a: Event, b: Event, c: Event)
    requires |f.steps| > 1 && a.name == b.name == f.steps[0] && c.name == f.steps[1]
    requires b.at - a.at > WindowMs(f) && c.at - a.at > WindowMs(f)
    ensures Start(f, [a, b], [false, false]) == if f.steps[1] == b.name then 2 else 0
    ensures f.steps[1] != b.name ==> Start(f, [a, b, c], [false, false, false]) == 3
  {
    hide Start, Earliest;
    EarliestOfTwo(f.steps, a, b);
    FirstStepsStart(f, a, b);
    StartSnoc(f, [a, b], [false, false], c, false);
    assert [a, b] + [c] == [a, b, c] && [a, b][0..] == [a, b];
    assert [false, false] + [false] == [false, false, false];
  }

  lemma OvertakenExpires(f: Definition, user: string)
    requires |f.steps| > 1
    ensures 2 <= Start(f, Overtaken(f, user), NoLoss(|f.steps| + 1))
  {
    var events := Overtaken(f, user);
    var a, b, c := events[0], events[1], events[2];
    LateStepExpires(f, a, b, c);
    hide Start;
    assert events[..2] == [a, b] && events[..3] == [a, b, c];
    assert NoLoss(2) == [false, false] && NoLoss(3) == [false, false, false];
    StartGrows(f, events, 2);
    StartGrows(f, events, 3);
  }

  /** Every definition of two steps or more misses a match inside its window. */
  lemma OvertakenIsMissed(f: Definition, user: string)
    requires |f.steps| > 1
    ensures !Converted(f, Overtaken(f, user))
  {
    var events := Overtaken(f, user);
    var none := NoLoss(|events|);
    OvertakenMatches(f, user);
    OvertakenExpires(f, user);
    StateIsLongestMatch(f, user, events, none);
    StepsBounded(f.steps, Attempt(f, events, none));
  }

  /** Every match inside the window is found, for every history. */
  ghost predicate FindsAll(f: Definition, user: string) {
    forall events :: OneUser(events, user) && WindowedMatch(f, events) ==> Converted(f, events)
  }

  /** The anchor never moves, and an expiring event is dropped: only funnels of one step find every match. */
  lemma FindsAllIff(f: Definition, user: string)
    ensures FindsAll(f, user) <==> |f.steps| == 1
  {
    if f.steps == [] {
      StateIsLongestMatch(f, user, [], NoLoss(0));
      var ps: seq<nat> := [];
      assert Matches(f.steps, [], ps) && Within([], ps, f.windowSeconds * 1000);
    } else if |f.steps| == 1 {
      forall events | OneUser(events, user) && WindowedMatch(f, events) ensures Converted(f, events) {
        OneStepNeverExpires(f, events);
        ConvertedIffSubsequence(f, user, events);
      }
    } else {
      OvertakenMatches(f, user);
      OvertakenIsMissed(f, user);
    }
  }

  lemma {:induction false} OneStepNeverExpires(f: Definition, events: seq<Event>)
    requires |f.steps| <= 1
    ensures Start(f, events, NoLoss(|events|)) == 0
  {
    if events != [] {
      var n := |events| - 1;
      assert events == events[..n] + [events[n]];
      OneStepNeverExpires(f, events[..n]);
      NoLossSnoc(n);
      StartSnoc(f, events[..n], NoLoss(n), events[n], false);
    }
  }

  // ---------------------------------------------------------------- the service and its Redis keys

  const TTL_MS := 7 * 24 * 60 * 60 * 1000

  function Key(id: string, user: string): string {
    "funnel:" + id + ":" + user
  }

  datatype Saved = Saved(state: State, expireAt: int)

  type Store = map<string, Saved>

  function Slot(store: Store, key: string): Option<Saved> {
    if key in store then Some(store[key]) else None
  }

  function Put(store: Store, key: string, slot: Option<Saved>): Store {
    if slot.Some? then store[key := slot.value] else store - {key}
  }

  predicate Expired(slot: Option<Saved>, now: int) {
    slot.Some? && now > slot.value.expireAt
  }

  /** What a read at `now` finds; Redis drops an expired key when it is read. */
  function Read(slot: Option<Saved>, now: int): Option<Saved> {
    if Expired(slot, now) then None else slot
  }

  function StateIn(slot: Option<Saved>): Option<State> {
    if slot.Some? then Some(slot.value.state) else None
  }

  /** evaluateFunnel on its key. */
  function EvaluateSlot(f: Definition, slot: Option<Saved>, e: Event, now: int): (Option<Saved>, Option<Conversion>) {
    var found := Read(slot, now);
    var out := Evaluate(f, StateIn(found), e);
    (if out.save.Some? then Some(Saved(out.save.value, now + TTL_MS)) else found, out.conversion)
  }

  function AsSeq<T>(o: Option<T>): seq<T> {
    if o.Some? then [o.value] else []
  }

  /** Process: the definitions of the event's app, in the order of the list. */
  function ProcessAll(store: Store, funnels: seq<Definition>, e: Event, now: int): (Store, seq<Conversion>) {
    if funnels == [] then (store, [])
    else
      var f := funnels[|funnels| - 1];
      var (before, convs) := ProcessAll(store, funnels[..|funnels| - 1], e, now);
      if f.app != e.app then (before, convs)
      else
        var key := Key(f.id, e.user);
        var (slot, conv) := EvaluateSlot(f, Slot(before, key), e, now);
        (Put(before, key, slot), convs + AsSeq(conv))
  }

  class FunnelService {
    const funnels: seq<Definition>
    var store: Store

    constructor (funnels: seq<Definition>)
      ensures this.funnels == funnels && store == map[]
    {
      this.funnels := funnels;
      store := map[];
    }

    /** `now` is the clock of Redis, in milliseconds. */
    method EvaluateFunnel(f: Definition, e: Event, now: int) returns (conv: Option<Conversion>)
      modifies this
      ensures var (slot, c) := EvaluateSlot(f, Slot(old(store), Key(f.id, e.user)), e, now);
              conv == c && store == Put(old(store), Key(f.id, e.user), slot)
    {
      var key := Key(f.id, e.user);
      if key in store && now > store[key].expireAt {
        store := store - {key};
      }
      var state := Fresh(f, e.user);
      if key in store {
        state := store[key].state;
      }
      assert store == Put(store, key, Slot(store, key));
      if state.converted || state.completed >= |f.steps| || f.steps[state.completed] != e.name {
        return None;
      }
      state := state.(completed := state.completed + 1);
      state := state.(times := state.times + [e.at]);
      if |state.times| > 1 && e.at - state.times[0] > f.windowSeconds * 1000 {
        store := store[key := Saved(Fresh(f, e.user), now + TTL_MS)];
        return None;
      }
      state := state.(converted := state.completed == |f.steps|);
      store := store[key := Saved(state, now + TTL_MS)];
      conv := Some(Conversion(e.app, e.user, f.id, state.completed, state.converted, e.at));
    }

    method Process(e: Event, now: int) returns (conversions: seq<Conversion>)
      modifies this
      ensures (store, conversions) == ProcessAll(old(store), funnels, e, now)
    {
      conversions := [];
      for k := 0 to |funnels|
        invariant (store, conversions) == ProcessAll(old(store), funnels[..k], e, now)
      {
        assert funnels[..k + 1][..k] == funnels[..k];
        if funnels[k].app != e.app { continue; }
        assert conversions + [] == conversions;
        var conv := EvaluateFunnel(funnels[k], e, now);
        if conv.Some? {
          conversions := conversions + [conv.value];
        }
      }
      assert funnels[..|funnels|] == funnels;
    }
  }

  // ---------------------------------------------------------------- one user among others

  predicate Hits(f: Definition, e: Event, key: string) {
    f.app == e.app && Key(f.id, e.user) == key
  }

  function ForKey(convs: seq<Conversion>, key: string): seq<Conversion> {
    if convs == [] then []
    else
      var c := convs[|convs| - 1];
      ForKey(convs[..|convs| - 1], key) + if Key(c.funnel, c.user) == key then [c] else []
  }

  lemma ForKeySnoc(convs: seq<Conversion>, conv: Option<Conversion>, key: string)
    ensures ForKey(convs + AsSeq(conv), key)
            == ForKey(convs, key) + if conv.Some? && Key(conv.value.funnel, conv.value.user) == key then AsSeq(conv) else []
  {
    if conv.Some? {
      assert (convs + [conv.value])[..|convs|] == convs;
    } else {
      assert convs + AsSeq(conv) == convs;
    }
  }

  lemma PutSlot(store: Store, k: string, slot: Option<Saved>, key: string)
    ensures Slot(Put(store, k, slot), key) == if k == key then slot else Slot(store, key)
  {
  }

  lemma EvaluateNames(f: Definition, slot: Option<Saved>, e: Event, now: int)
    ensures var c := EvaluateSlot(f, slot, e, now).1;
            c.Some? ==> c.value.funnel == f.id && c.value.user == e.user
  {
  }

  /** One definition of the loop, on its own key. */
  lemma OneMoreFunnel(store: Store, fs: seq<Definition>, f: Definition, e: Event, now: int)
    ensures var (before, convs) := ProcessAll(store, fs, e, now);
            var k := Key(f.id, e.user);
            var (slot, conv) := EvaluateSlot(f, Slot(before, k), e, now);
            ProcessAll(store, fs + [f], e, now)
            == if f.app != e.app then (before, convs) else (Put(before, k, slot), convs + AsSeq(conv))
  {
    hide EvaluateSlot, Put, Slot, Key;
    assert (fs + [f])[..|fs|] == fs;
  }

  lemma ProcessAllSnoc(store: Store, fs: seq<Definition>, f: Definition, e: Event, now: int, key: string)
    ensures var (before, convs) := ProcessAll(store, fs, e, now);
            var (after, all) := ProcessAll(store, fs + [f], e, now);
            var (slot, conv) := EvaluateSlot(f, Slot(before, key), e, now);
            && Slot(after, key) == (if Hits(f, e, key) then slot else Slot(before, key))
            && ForKey(all, key) == ForKey(convs, key) + if Hits(f, e, key) then AsSeq(conv) else []
  {
    hide ForKey, EvaluateSlot, Put, Slot, Key, ProcessAll;
    OneMoreFunnel(store, fs, f, e, now);
    var (before, convs) := ProcessAll(store, fs, e, now);
    if f.app == e.app {
      var k := Key(f.id, e.user);
      var (slot, conv) := EvaluateSlot(f, Slot(before, k), e, now);
      PutSlot(before, k, slot, key);
      ForKeySnoc(convs, conv, key);
      EvaluateNames(f, Slot(before, k), e, now);
    }
    assert ForKey(convs, key) + [] == ForKey(convs, key);
  }

  /** The conversions of one event come in the order of the list of definitions, at most one for each. */
  lemma {:induction false} ConversionsInListOrder(store: Store, fs: seq<Definition>, e: Event, now: int) returns (places: seq<nat>)
    ensures var convs := ProcessAll(store, fs, e, now).1;
            && |places| == |convs|
            && (forall k :: 0 <= k < |convs| ==> places[k] < |fs| && convs[k].funnel == fs[places[k]].id && fs[places[k]].app == e.app)
            && (forall j, k :: 0 <= j < k < |convs| ==> places[j] < places[k])
  {
    places := [];
    if fs != [] {
      var front, f := fs[..|fs| - 1], fs[|fs| - 1];
      assert fs == front + [f];
      places := ConversionsInListOrder(store, front, e, now);
      OneMoreFunnel(store, front, f, e, now);
      hide ProcessAll, EvaluateSlot, Put, Slot, Key;
      var (before, convs) := ProcessAll(store, front, e, now);
      var conv := EvaluateSlot(f, Slot(before, Key(f.id, e.user)), e, now).1;
      EvaluateNames(f, Slot(before, Key(f.id, e.user)), e, now);
      if f.app == e.app && conv.Some? {
        places := places + [|front|];
      } else {
        assert convs + AsSeq<Conversion>(None) == convs;
      }
    }
  }

  /** The definitions other than `fs[i]` do not touch `key`. */
  ghost predicate OnlyHit(fs: seq<Definition>, i: nat, e: Event, key: string) {
    forall j :: 0 <= j < |fs| && j != i ==> !Hits(fs[j], e, key)
  }

  lemma {:induction false} ProcessAllAt(store: Store, fs: seq<Definition>, i: nat, e: Event, now: int, key: string)
    requires OnlyHit(fs, i, e, key)
    ensures var (after, convs) := ProcessAll(store, fs, e, now);
            if i < |fs| && Hits(fs[i], e, key) then
              var (slot, conv) := EvaluateSlot(fs[i], Slot(store, key), e, now);
              Slot(after, key) == slot && ForKey(convs, key) == AsSeq(conv)
            else
              Slot(after, key) == Slot(store, key) && ForKey(convs, key) == []
  {
    hide EvaluateSlot, Slot, Hits;
    if fs != [] {
      var front, f := fs[..|fs| - 1], fs[|fs| - 1];
      assert fs == front + [f];
      ProcessAllAt(store, front, i, e, now, key);
      ProcessAllSnoc(store, front, f, e, now, key);
    }
  }

  datatype Arrival = Arrival(e: Event, now: int)

  function StoreAfter(fs: seq<Definition>, trace: seq<Arrival>): Store {
    if trace == [] then map[]
    else
      var a := trace[|trace| - 1];
      ProcessAll(StoreAfter(fs, trace[..|trace| - 1]), fs, a.e, a.now).0
  }

  /** Everything Process returned. */
  function Emitted(fs: seq<Definition>, trace: seq<Arrival>, key: string): seq<Conversion> {
    if trace == [] then []
    else
      var before, a := trace[..|trace| - 1], trace[|trace| - 1];
      Emitted(fs, before, key) + ForKey(ProcessAll(StoreAfter(fs, before), fs, a.e, a.now).1, key)
  }

  predicate Concerns(f: Definition, user: string, e: Event) {
    e.app == f.app && e.user == user
  }

  function EventsOf(trace: seq<Arrival>, f: Definition, user: string): seq<Event> {
    if trace == [] then []
    else
      var front, a := EventsOf(trace[..|trace| - 1], f, user), trace[|trace| - 1];
      if Concerns(f, user, a.e) then front + [a.e] else front
  }

  /** At which of these events the key had expired. */
  function LossesOf(fs: seq<Definition>, trace: seq<Arrival>, f: Definition, user: string): seq<bool> {
    if trace == [] then []
    else
      var before, a := trace[..|trace| - 1], trace[|trace| - 1];
      var front := LossesOf(fs, before, f, user);
      if Concerns(f, user, a.e) then front + [Expired(Slot(StoreAfter(fs, before), Key(f.id, user)), a.now)] else front
  }

  function Somes(emitted: seq<Option<Conversion>>): seq<Conversion> {
    if emitted == [] then [] else Somes(emitted[..|emitted| - 1]) + AsSeq(emitted[|emitted| - 1])
  }

  lemma SomesSnoc(emitted: seq<Option<Conversion>>, c: Option<Conversion>)
    ensures Somes(emitted + [c]) == Somes(emitted) + AsSeq(c)
  {
    assert (emitted + [c])[..|emitted|] == emitted;
  }

  /** Funnel ids are UUIDs: distinct, and without a ':'. */
  ghost predicate Separate(fs: seq<Definition>) {
    && (forall i :: 0 <= i < |fs| ==> ':' !in fs[i].id)
    && (forall i, j :: 0 <= i < j < |fs| ==> fs[i].id != fs[j].id)
  }

  lemma KeyInjective(id: string, user: string, id': string, user': string)
    requires ':' !in id && ':' !in id' && Key(id, user) == Key(id', user')
    ensures id == id' && user == user'
  {
    var p := "funnel:";
    var s := id + ":" + user;
    assert Key(id, user)[|p|..] == s && Key(id', user')[|p|..] == id' + ":" + user';
    assert s[|id|] == ':' && s[|id'|] == ':';
    assert forall k :: 0 <= k < |id| ==> s[k] == id[k] != ':';
    assert forall k :: 0 <= k < |id'| ==> s[k] == id'[k] != ':';
    assert |id| == |id'|;
    assert id == s[..|id|] == id';
    assert user == s[|id| + 1..] == user';
  }

  ghost predicate Tracks(fs: seq<Definition>, i: nat, user: string, trace: seq<Arrival>)
    requires i < |fs|
  {
    var f := fs[i];
    var key := Key(f.id, user);
    var events, lost := EventsOf(trace, f, user), LossesOf(fs, trace, f, user);
    && |lost| == |events| && OneUser(events, user)
    && StateIn(Slot(StoreAfter(fs, trace), key)) == Run(f, events, lost).state
    && Emitted(fs, trace, key) == Somes(Run(f, events, lost).emitted)
  }

  lemma TraceSnoc(fs: seq<Definition>, i: nat, user: string, trace: seq<Arrival>, a: Arrival)
    requires i < |fs| && Separate(fs)
    ensures var f := fs[i];
            var key := Key(f.id, user);
            var slot := Slot(StoreAfter(fs, trace), key);
            var (next, conv) := EvaluateSlot(f, slot, a.e, a.now);
            if Concerns(f, user, a.e) then
              && Slot(StoreAfter(fs, trace + [a]), key) == next
              && Emitted(fs, trace + [a], key) == Emitted(fs, trace, key) + AsSeq(conv)
              && EventsOf(trace + [a], f, user) == EventsOf(trace, f, user) + [a.e]
              && LossesOf(fs, trace + [a], f, user) == LossesOf(fs, trace, f, user) + [Expired(slot, a.now)]
            else
              && Slot(StoreAfter(fs, trace + [a]), key) == slot
              && Emitted(fs, trace + [a], key) == Emitted(fs, trace, key)
              && EventsOf(trace + [a], f, user) == EventsOf(trace, f, user)
              && LossesOf(fs, trace + [a], f, user) == LossesOf(fs, trace, f, user)
  {
    var f := fs[i];
    var key := Key(f.id, user);
    assert (trace + [a])[..|trace|] == trace;
    forall j | 0 <= j < |fs| && Hits(fs[j], a.e, key) ensures j == i && Concerns(f, user, a.e) {
      KeyInjective(fs[j].id, a.e.user, f.id, user);
    }
    assert Concerns(f, user, a.e) ==> Hits(f, a.e, key);
    ProcessAllAt(StoreAfter(fs, trace), fs, i, a.e, a.now, key);
    hide ProcessAll, EvaluateSlot, Expired, Slot, ForKey, Key;
    assert Emitted(fs, trace, key) + [] == Emitted(fs, trace, key);
  }

  lemma ReadState(slot: Option<Saved>, now: int)
    ensures StateIn(Read(slot, now)) == if Expired(slot, now) then None else StateIn(slot)
  {
  }

  lemma ArrivalTracked(fs: seq<Definition>, i: nat, user: string, trace: seq<Arrival>, a: Arrival)
    requires i < |fs| && Separate(fs) && Tracks(fs, i, user, trace)
    ensures Tracks(fs, i, user, trace + [a])
  {
    hide Run, Evaluate, Expired, Read, StoreAfter, EventsOf, LossesOf, Emitted, Somes, Slot, Key, Separate;
    var f := fs[i];
    var key := Key(f.id, user);
    TraceSnoc(fs, i, user, trace, a);
    if Concerns(f, user, a.e) {
      var events, lost := EventsOf(trace, f, user), LossesOf(fs, trace, f, user);
      var slot := Slot(StoreAfter(fs, trace), key);
      RunSnoc(f, events, lost, a.e, Expired(slot, a.now));
      ReadState(slot, a.now);
      SomesSnoc(Run(f, events, lost).emitted, Evaluate(f, StateIn(Read(slot, a.now)), a.e).conversion);
    }
  }

  /**
   * Among any other users and funnels, what the store holds and Process emits for one user and funnel is the run of
   * that user's events alone, with its state lost exactly where the key had expired.
   */
  lemma {:induction false} StoreRunsUser(fs: seq<Definition>, i: nat, user: string, trace: seq<Arrival>)
    requires i < |fs| && Separate(fs)
    ensures Tracks(fs, i, user, trace)
  {
    if trace != [] {
      var n := |trace| - 1;
      assert trace == trace[..n] + [trace[n]];
      StoreRunsUser(fs, i, user, trace[..n]);
      hide Tracks;
      ArrivalTracked(fs, i, user, trace[..n], trace[n]);
    }
  }

  /** The clock of Redis advances by no more than the seven days a state is kept. */
  ghost predicate Brief(trace: seq<Arrival>) {
    forall j, k :: 0 <= j < k < |trace| ==> trace[k].now - trace[j].now <= 7 * 24 * 60 * 60 * 1000
  }

  /** A key expires seven days after some event was processed. */
  ghost predicate SavedDuring(slot: Option<Saved>, trace: seq<Arrival>) {
    slot.Some? ==> exists j :: 0 <= j < |trace| && slot.value.expireAt == trace[j].now + TTL_MS
  }

  lemma SavedSnoc(slot: Option<Saved>, f: Definition, trace: seq<Arrival>, a: Arrival)
    requires SavedDuring(slot, trace)
    ensures SavedDuring(slot, trace + [a])
    ensures SavedDuring(EvaluateSlot(f, slot, a.e, a.now).0, trace + [a])
  {
    hide Evaluate;
    var next := EvaluateSlot(f, slot, a.e, a.now).0;
    assert (trace + [a])[|trace|] == a;
    if slot.Some? {
      var j :| 0 <= j < |trace| && slot.value.expireAt == trace[j].now + TTL_MS;
      assert (trace + [a])[j] == trace[j];
    }
    assert next == slot || next.None? || next.value.expireAt == (trace + [a])[|trace|].now + TTL_MS;
  }

  /** A state is found for seven days after the event that wrote it, and not after. */
  lemma KeptSevenDays(f: Definition, slot: Option<Saved>, e: Event, saved: int, now: int)
    requires Evaluate(f, StateIn(Read(slot, saved)), e).save.Some?
    ensures var next := EvaluateSlot(f, slot, e, saved).0;
            StateIn(Read(next, now))
            == if now - saved <= 7 * 24 * 60 * 60 * 1000 then Evaluate(f, StateIn(Read(slot, saved)), e).save else None
  {
    hide Evaluate;
  }

  lemma {:induction false} NothingLost(fs: seq<Definition>, i: nat, user: string, trace: seq<Arrival>)
    requires i < |fs| && Separate(fs) && Brief(trace)
    ensures SavedDuring(Slot(StoreAfter(fs, trace), Key(fs[i].id, user)), trace)
    ensures LossesOf(fs, trace, fs[i], user) == NoLoss(|EventsOf(trace, fs[i], user)|)
  {
    if trace != [] {
      var n := |trace| - 1;
      var front, a := trace[..n], trace[n];
      assert trace == front + [a];
      NothingLost(fs, i, user, front);
      TraceSnoc(fs, i, user, front, a);
      var slot := Slot(StoreAfter(fs, front), Key(fs[i].id, user));
      SavedSnoc(slot, fs[i], front, a);
      NoLossSnoc(|EventsOf(front, fs[i], user)|);
      hide StoreAfter, EventsOf, LossesOf, EvaluateSlot, Key, Slot;
      assert !Expired(slot, a.now) by {
        if slot.Some? {
          var j :| 0 <= j < |front| && slot.value.expireAt == front[j].now + TTL_MS;
          assert trace[n].now - trace[j].now <= TTL_MS;
        }
      }
    }
  }

  lemma {:induction false} SomesCount(emitted: seq<Option<Conversion>>)
    ensures CountConversions(emitted) == |Conversions(Somes(emitted))|
  {
    if emitted != [] {
      var front, c := emitted[..|emitted| - 1], emitted[|emitted| - 1];
      SomesCount(front);
      if c.Some? {
        assert (Somes(front) + [c.value])[..|Somes(front)|] == Somes(front);
      } else {
        assert Somes(emitted) == Somes(front);
      }
    }
  }

  /** The emissions that report a conversion. */
  function Conversions(convs: seq<Conversion>): seq<Conversion> {
    if convs == [] then []
    else
      var c := convs[|convs| - 1];
      Conversions(convs[..|convs| - 1]) + if c.converted then [c] else []
  }

  /**
   * The service as a whole: over at most seven days, for a user whose events stay inside the window, Process reports
   * exactly one conversion if Steps is a subsequence of the event names, and none if it is not.
   */
  lemma ServiceConvertsIff(fs: seq<Definition>, i: nat, user: string, trace: seq<Arrival>)
    requires i < |fs| && Separate(fs) && Brief(trace)
    requires SpreadWithin(EventsOf(trace, fs[i], user), fs[i].windowSeconds * 1000)
    ensures |Conversions(Emitted(fs, trace, Key(fs[i].id, user)))|
            == if fs[i].steps != [] && Subsequence(fs[i].steps, EventsOf(trace, fs[i], user)) then 1 else 0
  {
    var f, events := fs[i], EventsOf(trace, fs[i], user);
    StoreRunsUser(fs, i, user, trace);
    NothingLost(fs, i, user, trace);
    CompleteInsideWindow(f, user, events);
    EmittedOnce(f, events);
    SomesCount(Run(f, events, NoLoss(|events|)).emitted);
  }
}
