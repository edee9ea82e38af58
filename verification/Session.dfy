/**
 * The session engine (internal/session/engine.go): an incremental processor over the events of a device, with its
 * state in Redis, against splitting the same events at every gap of more than thirty minutes.
 */
module Session {
  import opened Common

  const TIMEOUT_MS := 30 * 60 * 1000

  /** `saveSession` keeps the state five minutes longer than the timeout. */
  const TTL_MS := TIMEOUT_MS + 5 * 60 * 1000

  const NS_PER_MS := 1_000_000

  datatype Device = Device(app: string, device: string)

  /** The parts of an enriched event the engine reads; `screen` is the string property `screen_name`, `at` ServerTime. */
  datatype Event = Event(user: string, name: string, screen: Option<string>, at: int)

  datatype State = State(
    id: string, app: string, user: string, device: string, start: int, last: int, count: int,
    screens: seq<string>, entry: string)

  datatype SessionEvent =
    | SessionStart(id: string, app: string, user: string, device: string, start: int)
    | SessionEnd(id: string, app: string, user: string, device: string, start: int, end: int, durationS: int,
                 count: int, screens: seq<string>, entry: string, exit: string)

  function Key(d: Device): string {
    "session:state:" + d.app + ":" + d.device
  }

  function Id(d: Device, at: int): string {
    d.app + "-" + d.device + "-" + FormatInt(at)
  }

  /** Go division truncates toward zero. */
  function Quotient(a: int, b: int): int
    requires b > 0
  {
    if a >= 0 then a / b else -(-a / b)
  }

  /** Signed 64-bit wrap-around. */
  function Wrap64(x: int): int {
    (x + 0x8000_0000_0000_0000) % 0x1_0000_0000_0000_0000 - 0x8000_0000_0000_0000
  }

  /** `time.Duration(now-last) * time.Millisecond > timeout`. */
  predicate Inactive(last: int, now: int) {
    Wrap64((now - last) * NS_PER_MS) > TIMEOUT_MS * NS_PER_MS
  }

  /** Milliseconds whose nanoseconds fit 64 bits: up to the year 2262. */
  predicate InRange(at: int) {
    0 <= at <= 9_223_372_036_854
  }

  lemma InactiveIsGap(last: int, now: int)
    requires InRange(last) && InRange(now)
    ensures Inactive(last, now) <==> now - last > 1_800_000
    ensures TIMEOUT_MS == 1_800_000
  {
  }

  /** Outside this range the nanoseconds wrap: a gap of about 584 years counts as none. */
  lemma WrapsOutsideRange(last: int)
    ensures !Inactive(last, last + 18_446_744_073_709) && Inactive(last, last + 9_223_372_036_854)
    ensures forall x :: -0x8000_0000_0000_0000 <= Wrap64(x) < 0x8000_0000_0000_0000
                        && (Wrap64(x) - x) % 0x1_0000_0000_0000_0000 == 0
  {
  }

  predicate IsScreen(e: Event) {
    (e.name == "screen_view" || e.name == "page_view") && e.screen.Some? && e.screen.value != ""
  }

  function Exit(screens: seq<string>): string {
    if screens == [] then "" else screens[|screens| - 1]
  }

  /** buildSessionEndEvent. */
  function EndEvent(s: State, end: int): SessionEvent {
    SessionEnd(s.id, s.app, s.user, s.device, s.start, end, Quotient(end - s.start, 1000), s.count, s.screens, s.entry,
               Exit(s.screens))
  }

  function StartEvent(d: Device, e: Event): SessionEvent {
    SessionStart(Id(d, e.at), d.app, e.user, d.device, e.at)
  }

  function NewState(d: Device, e: Event): State {
    State(Id(d, e.at), d.app, e.user, d.device, e.at, e.at, 0, [], "")
  }

  function Touch(s: State, e: Event): State {
    var screens := if IsScreen(e) then s.screens + [e.screen.value] else s.screens;
    var entry := if IsScreen(e) && s.entry == "" then e.screen.value else s.entry;
    s.(last := e.at, count := s.count + 1, user := if s.user == "" then e.user else s.user, screens := screens, entry := entry)
  }

  /** Process for one device: the state to save, the id given to the event, the events emitted. */
  function Step(d: Device, loaded: Option<State>, e: Event): (State, string, seq<SessionEvent>) {
    if loaded.None? then
      var s := Touch(NewState(d, e), e);
      (s, s.id, [StartEvent(d, e)])
    else if Inactive(loaded.value.last, e.at) then
      var s := Touch(NewState(d, e), e);
      (s, s.id, [EndEvent(loaded.value, e.at - 1), StartEvent(d, e)])
    else
      var s := Touch(loaded.value, e);
      (s, s.id, [])
  }

  // ---------------------------------------------------------------- the engine and its Redis keys

  datatype Saved = Saved(state: State, expireAt: int)

  type Store = map<string, Saved>

  function Load(store: Store, key: string, now: int): Option<State> {
    if key in store && now <= store[key].expireAt then Some(store[key].state) else None
  }

  /** A state is found for 35 minutes after the event that saved it, and not after. */
  lemma KeptThirtyFiveMinutes(store: Store, key: string, state: State, saved: int, now: int)
    ensures Load(store[key := Saved(state, saved + TTL_MS)], key, now) == if now - saved <= 2_100_000 then Some(state) else None
  {
  }

  class Engine {
    var store: Store

    constructor ()
      ensures store == map[]
    {
      store := map[];
    }

    /** `now` is the clock of Redis, in milliseconds. */
    method Process(d: Device, e: Event, now: int) returns (id: string, emitted: seq<SessionEvent>)
      modifies this
      ensures var (s, i, out) := Step(d, Load(old(store), Key(d), now), e);
              id == i && emitted == out && store == old(store)[Key(d) := Saved(s, now + TTL_MS)]
    {
      var key := Key(d);
      var isNew := !(key in store && now <= store[key].expireAt);
      var state: State;
      var emitEnd := false;
      emitted := [];
      if isNew {
        state := NewState(d, e);
      } else {
        state := store[key].state;
        if Inactive(state.last, e.at) {
          emitted := emitted + [EndEvent(state, e.at - 1)];
          emitEnd := true;
          state := NewState(d, e);
        }
      }
      if isNew || emitEnd {
        emitted := emitted + [SessionStart(state.id, state.app, state.user, state.device, state.start)];
      }
      state := state.(last := e.at, count := state.count + 1);
      if state.user == "" && e.user != "" {
        state := state.(user := e.user);
      }
      if IsScreen(e) {
        state := state.(screens := state.screens + [e.screen.value]);
        if state.entry == "" {
          state := state.(entry := e.screen.value);
        }
      }
      id := state.id;
      store := store[key := Saved(state, now + TTL_MS)];
    }
  }

  // ---------------------------------------------------------------- one device, any loss of state

  datatype Out = Out(state: Option<State>, ids: seq<string>, emitted: seq<SessionEvent>)

  /** `lost[i]` says that Redis no longer had the state when event `i` arrived. */
  function Run(d: Device, events: seq<Event>, lost: seq<bool>): Out
    requires |lost| == |events|
  {
    if events == [] then Out(None, [], [])
    else
      var n := |events| - 1;
      var before := Run(d, events[..n], lost[..n]);
      var (s, id, out) := Step(d, if lost[n] then None else before.state, events[n]);
      Out(Some(s), before.ids + [id], before.emitted + out)
  }

  // ---------------------------------------------------------------- batch sessionisation

  function Split(events: seq<Event>): seq<seq<Event>> {
    if events == [] then []
    else
      var n := |events| - 1;
      var before := Split(events[..n]);
      if before == [] || events[n].at - events[n - 1].at > TIMEOUT_MS then before + [[events[n]]]
      else before[..|before| - 1] + [before[|before| - 1] + [events[n]]]
  }

  function FirstUser(s: seq<Event>): string {
    if s == [] then ""
    else if FirstUser(s[..|s| - 1]) != "" then FirstUser(s[..|s| - 1])
    else s[|s| - 1].user
  }

  function Screens(s: seq<Event>): seq<string> {
    if s == [] then []
    else if IsScreen(s[|s| - 1]) then Screens(s[..|s| - 1]) + [s[|s| - 1].screen.value]
    else Screens(s[..|s| - 1])
  }

  /** What there is to know about a session, from its events alone. */
  function Summary(d: Device, s: seq<Event>): State
    requires s != []
  {
    State(Id(d, s[0].at), d.app, FirstUser(s), d.device, s[0].at, s[|s| - 1].at, |s|, Screens(s),
          if Screens(s) == [] then "" else Screens(s)[0])
  }

  /** The sessions are the maximal stretches without a gap above thirty minutes, and together they are the events. */
  ghost predicate IsBatch(events: seq<Event>, ss: seq<seq<Event>>) {
    && Flatten(ss) == events
    && (forall i :: 0 <= i < |ss| ==> Tight(ss[i]))
    && (forall i :: 0 < i < |ss| ==> Apart(ss[i - 1], ss[i]))
  }

  ghost predicate Tight(s: seq<Event>) {
    s != [] && forall j :: 0 < j < |s| ==> s[j].at - s[j - 1].at <= 1_800_000
  }

  ghost predicate Apart(s: seq<Event>, t: seq<Event>) {
    s != [] && t != [] && t[0].at - s[|s| - 1].at > 1_800_000
  }

  function Flatten(ss: seq<seq<Event>>): seq<Event> {
    if ss == [] then [] else Flatten(ss[..|ss| - 1]) + ss[|ss| - 1]
  }

  lemma FlattenSnoc(ss: seq<seq<Event>>, s: seq<Event>)
    ensures Flatten(ss + [s]) == Flatten(ss) + s
  {
    assert (ss + [s])[..|ss|] == ss;
  }

  lemma OpenSession(events: seq<Event>, ss: seq<seq<Event>>, e: Event)
    requires IsBatch(events, ss) && (ss != [] ==> Apart(ss[|ss| - 1], [e]))
    ensures IsBatch(events + [e], ss + [[e]])
  {
    hide Apart, Flatten;
    FlattenSnoc(ss, [e]);
  }

  lemma ExtendSession(events: seq<Event>, init: seq<seq<Event>>, s: seq<Event>, e: Event)
    requires IsBatch(events, init + [s]) && s != [] && e.at - s[|s| - 1].at <= TIMEOUT_MS
    ensures IsBatch(events + [e], init + [s + [e]])
  {
    hide Flatten, Apart, Tight;
    var ss, tt := init + [s], init + [s + [e]];
    FlattenSnoc(init, s);
    FlattenSnoc(init, s + [e]);
    assert Flatten(init) + (s + [e]) == (Flatten(init) + s) + [e];
    assert ss[|init|] == s;
    assert Tight(s + [e]) by { TightSnoc(s, e); }
    forall i | 0 < i < |tt| ensures Apart(tt[i - 1], tt[i]) {
      assert Apart(ss[i - 1], ss[i]);
      if i == |init| { ApartExtend(ss[i - 1], s, e); }
    }
    forall i | 0 <= i < |init| ensures Tight(tt[i]) {
      assert Tight(ss[i]);
    }
  }

  lemma TightSnoc(s: seq<Event>, e: Event)
    requires Tight(s) && e.at - s[|s| - 1].at <= TIMEOUT_MS
    ensures Tight(s + [e])
  {
  }

  lemma ApartExtend(r: seq<Event>, s: seq<Event>, e: Event)
    requires Apart(r, s)
    ensures Apart(r, s + [e])
  {
    assert (s + [e])[0] == s[0];
  }

  lemma {:induction false} SplitIsBatch(events: seq<Event>)
    ensures IsBatch(events, Split(events))
    ensures events != [] ==> Split(events) != [] && LastSession(events) != []
                             && LastSession(events)[|LastSession(events)| - 1] == events[|events| - 1]
  {
    if events != [] {
      var n := |events| - 1;
      var before, e := Split(events[..n]), events[n];
      SplitIsBatch(events[..n]);
      assert events == events[..n] + [e];
      if before == [] || e.at - events[n - 1].at > TIMEOUT_MS {
        OpenSession(events[..n], before, e);
      } else {
        var init, s := before[..|before| - 1], before[|before| - 1];
        assert before == init + [s];
        ExtendSession(events[..n], init, s, e);
      }
    }
  }

  function LastSession(events: seq<Event>): seq<Event> {
    var ss := Split(events);
    if ss == [] then [] else ss[|ss| - 1]
  }

  // ---------------------------------------------------------------- refinement

  /** Redis forgets the state after a silence longer than `keep`, or never. */
  function Forgets(events: seq<Event>, keep: Option<int>): (r: seq<bool>)
    ensures |r| == |events|
  {
    seq(|events|, i requires 0 <= i < |events| =>
      i > 0 && keep.Some? && events[i].at - events[i - 1].at > keep.value)
  }

  /** One id per event, that of its session. */
  function BatchIds(d: Device, events: seq<Event>): seq<string> {
    if events == [] then []
    else
      var s := LastSession(events);
      BatchIds(d, events[..|events| - 1]) + [if s == [] then "" else Id(d, s[0].at)]
  }

  /** What the first event of a session emits after session `prev`: its end, unless the silence outlasted `keep`. */
  function Boundary(d: Device, prev: seq<Event>, first: Event, keep: Option<int>): seq<SessionEvent> {
    if prev == [] || (keep.Some? && first.at - prev[|prev| - 1].at > keep.value) then [StartEvent(d, first)]
    else [EndEvent(Summary(d, prev), first.at - 1), StartEvent(d, first)]
  }

  function Expected(d: Device, ss: seq<seq<Event>>, keep: Option<int>): seq<SessionEvent> {
    if ss == [] || ss[|ss| - 1] == [] then []
    else
      var k := |ss| - 1;
      Expected(d, ss[..k], keep) + Boundary(d, if k > 0 then ss[k - 1] else [], ss[k][0], keep)
  }

  lemma {:induction false} ScreensNonempty(s: seq<Event>)
    ensures forall i :: 0 <= i < |Screens(s)| ==> Screens(s)[i] != ""
  {
    if s != [] {
      ScreensNonempty(s[..|s| - 1]);
    }
  }

  lemma SummarySnoc(d: Device, s: seq<Event>, e: Event)
    ensures s == [] ==> Touch(NewState(d, e), e) == Summary(d, [e])
    ensures s != [] ==> Touch(Summary(d, s), e) == Summary(d, s + [e])
  {
    assert (s + [e])[..|s|] == s;
    assert [e][..0] == [];
    ScreensNonempty(s);
  }

  lemma ExpectedSnoc(d: Device, ss: seq<seq<Event>>, s: seq<Event>, keep: Option<int>)
    requires s != []
    ensures Expected(d, ss + [s], keep)
            == Expected(d, ss, keep) + Boundary(d, if ss == [] then [] else ss[|ss| - 1], s[0], keep)
  {
    hide Boundary;
    assert (ss + [s])[..|ss|] == ss;
  }

  lemma ExpectedExtend(d: Device, init: seq<seq<Event>>, s: seq<Event>, e: Event, keep: Option<int>)
    requires s != []
    ensures Expected(d, init + [s + [e]], keep) == Expected(d, init + [s], keep)
  {
    ExpectedSnoc(d, init, s, keep);
    ExpectedSnoc(d, init, s + [e], keep);
    hide Expected, Boundary;
    assert (s + [e])[0] == s[0];
  }

  ghost predicate AllInRange(events: seq<Event>) {
    forall i :: 0 <= i < |events| ==> InRange(events[i].at)
  }

  lemma SplitUnfolds(events: seq<Event>, e: Event)
    ensures var before := Split(events);
            Split(events + [e]) == if before == [] || events == [] || e.at - events[|events| - 1].at > TIMEOUT_MS then before + [[e]]
                                   else before[..|before| - 1] + [before[|before| - 1] + [e]]
  {
    assert (events + [e])[..|events|] == events;
  }

  lemma LastOfSplit(events: seq<Event>)
    ensures events == [] ==> Split(events) == [] && LastSession(events) == []
    ensures events != [] ==> Split(events) != [] && LastSession(events) == Split(events)[|Split(events)| - 1]
    ensures events != [] ==> LastSession(events) != []
                             && LastSession(events)[|LastSession(events)| - 1] == events[|events| - 1]
  {
    SplitIsBatch(events);
    hide IsBatch;
  }

  lemma LastSessionIs(events: seq<Event>, init: seq<seq<Event>>, s: seq<Event>)
    requires Split(events) == init + [s]
    ensures LastSession(events) == s
  {
    hide Split;
  }

  /** How Split grows by one event. */
  lemma SplitSnoc(events: seq<Event>, e: Event)
    ensures var before := Split(events);
            Split(events + [e]) == if events == [] || e.at - events[|events| - 1].at > TIMEOUT_MS then before + [[e]]
                                   else before[..|before| - 1] + [LastSession(events) + [e]]
    ensures LastSession(events + [e]) == if events == [] || e.at - events[|events| - 1].at > TIMEOUT_MS then [e]
                                         else LastSession(events) + [e]
  {
    SplitUnfolds(events, e);
    LastOfSplit(events);
    hide Split, LastSession;
    var before := Split(events);
    if events == [] || e.at - events[|events| - 1].at > TIMEOUT_MS {
      LastSessionIs(events + [e], before, [e]);
    } else {
      LastSessionIs(events + [e], before[..|before| - 1], LastSession(events) + [e]);
    }
  }

  lemma RunSnoc(d: Device, events: seq<Event>, lost: seq<bool>, e: Event, l: bool)
    requires |lost| == |events|
    ensures var before := Run(d, events, lost);
            var (s, id, out) := Step(d, if l then None else before.state, e);
            Run(d, events + [e], lost + [l]) == Out(Some(s), before.ids + [id], before.emitted + out)
  {
    assert (events + [e])[..|events|] == events && (lost + [l])[..|lost|] == lost;
  }

  lemma BatchIdsSnoc(d: Device, events: seq<Event>, e: Event)
    ensures BatchIds(d, events + [e]) == BatchIds(d, events) + [Id(d, LastSession(events + [e])[0].at)]
    ensures LastSession(events + [e]) != []
  {
    assert (events + [e])[..|events|] == events;
    SplitSnoc(events, e);
  }

  lemma ForgetsSnoc(events: seq<Event>, e: Event, keep: Option<int>)
    ensures Forgets(events + [e], keep)
            == Forgets(events, keep) + [events != [] && keep.Some? && e.at - events[|events| - 1].at > keep.value]
  {
  }

  ghost predicate Refines(d: Device, events: seq<Event>, keep: Option<int>) {
    var out := Run(d, events, Forgets(events, keep));
    && out.state == (if LastSession(events) == [] then None else Some(Summary(d, LastSession(events))))
    && out.ids == BatchIds(d, events)
    && out.emitted == Expected(d, Split(events), keep)
  }

  lemma FirstStep(d: Device, e: Event, keep: Option<int>)
    ensures Step(d, None, e) == (Summary(d, [e]), Id(d, e.at), Boundary(d, [], e, keep))
    ensures Expected(d, [], keep) == []
  {
    SummarySnoc(d, [], e);
  }

  lemma NewSessionStep(d: Device, s: seq<Event>, e: Event, keep: Option<int>, l: bool)
    requires s != [] && InRange(s[|s| - 1].at) && InRange(e.at) && e.at - s[|s| - 1].at > TIMEOUT_MS
    requires l == (keep.Some? && e.at - s[|s| - 1].at > keep.value)
    ensures Step(d, if l then None else Some(Summary(d, s)), e) == (Summary(d, [e]), Id(d, e.at), Boundary(d, s, e, keep))
  {
    InactiveIsGap(s[|s| - 1].at, e.at);
    SummarySnoc(d, [], e);
  }

  lemma SameSessionStep(d: Device, s: seq<Event>, e: Event)
    requires s != [] && InRange(s[|s| - 1].at) && InRange(e.at) && e.at - s[|s| - 1].at <= TIMEOUT_MS
    ensures Step(d, Some(Summary(d, s)), e) == (Summary(d, s + [e]), Id(d, s[0].at), [])
  {
    InactiveIsGap(s[|s| - 1].at, e.at);
    SummarySnoc(d, s, e);
  }

  ghost predicate StartsSession(events: seq<Event>, e: Event) {
    events == [] || e.at - events[|events| - 1].at > TIMEOUT_MS
  }

  /** The facts about events + [e] that do not depend on whether `e` opens a session. */
  lemma GrowByOne(d: Device, events: seq<Event>, e: Event, keep: Option<int>) returns (l: bool)
    requires AllInRange(events + [e])
    ensures l == (events != [] && keep.Some? && e.at - events[|events| - 1].at > keep.value)
    ensures var before := Run(d, events, Forgets(events, keep));
            var (s, id, out) := Step(d, if l then None else before.state, e);
            Run(d, events + [e], Forgets(events + [e], keep)) == Out(Some(s), before.ids + [id], before.emitted + out)
    ensures InRange(e.at) && (events != [] ==> InRange(events[|events| - 1].at))
  {
    hide Run, Step, Forgets, InRange;
    l := events != [] && keep.Some? && e.at - events[|events| - 1].at > keep.value;
    ForgetsSnoc(events, e, keep);
    RunSnoc(d, events, Forgets(events, keep), e, l);
    assert (events + [e])[|events|] == e;
    assert events != [] ==> (events + [e])[|events| - 1] == events[|events| - 1];
  }

  lemma RefinesNewSession(d: Device, events: seq<Event>, e: Event, keep: Option<int>)
    requires AllInRange(events + [e]) && Refines(d, events, keep) && StartsSession(events, e)
    ensures Refines(d, events + [e], keep)
  {
    hide Run, Step, Split, LastSession, BatchIds, Expected, Boundary, Summary, Forgets, InRange, IsBatch;
    var l := GrowByOne(d, events, e, keep);
    BatchIdsSnoc(d, events, e);
    SplitSnoc(events, e);
    LastOfSplit(events);
    ExpectedSnoc(d, Split(events), [e], keep);
    if events == [] {
      FirstStep(d, e, keep);
    } else {
      NewSessionStep(d, LastSession(events), e, keep, l);
    }
  }

  lemma RefinesSameSession(d: Device, events: seq<Event>, e: Event, keep: Option<int>)
    requires keep.Some? ==> keep.value >= TIMEOUT_MS
    requires AllInRange(events + [e]) && Refines(d, events, keep) && !StartsSession(events, e)
    ensures Refines(d, events + [e], keep)
  {
    hide Run, Step, Split, LastSession, BatchIds, Expected, Boundary, Summary, Forgets, InRange, IsBatch;
    var l := GrowByOne(d, events, e, keep);
    BatchIdsSnoc(d, events, e);
    SplitSnoc(events, e);
    LastOfSplit(events);
    var s, ss := LastSession(events), Split(events);
    var init := ss[..|ss| - 1];
    assert ss == init + [s];
    SameSessionStep(d, s, e);
    ExpectedExtend(d, init, s, e, keep);
    assert (s + [e])[0] == s[0];
  }

  lemma SessionsNonempty(events: seq<Event>)
    ensures var ss := Split(events);
            && (forall i :: 0 <= i < |ss| ==> ss[i] != [])
            && (events == [] ==> ss == [] && LastSession(events) == [])
            && (events != [] ==> ss != [] && LastSession(events) == ss[|ss| - 1]
                                 && ss[|ss| - 1][|ss[|ss| - 1]| - 1] == events[|events| - 1])
  {
    SplitIsBatch(events);
    var ss := Split(events);
    forall i | 0 <= i < |ss| ensures ss[i] != [] {
      assert Tight(ss[i]);
    }
  }

  lemma RefinesNil(d: Device, keep: Option<int>)
    ensures Refines(d, [], keep)
  {
    assert Forgets([], keep) == [];
  }

  /**
   * The incremental engine refines batch sessionisation. When Redis forgets a device only after silences longer than
   * `keep` (at least the timeout), or never, then: the saved state summarises the open session, every event gets the
   * id of its batch session, and what is emitted is one start per session and, for every closed session that was not
   * forgotten, one end summarising it.
   */
  lemma {:induction false} RefinesBatch(d: Device, events: seq<Event>, keep: Option<int>)
    requires keep.Some? ==> keep.value >= TIMEOUT_MS
    requires AllInRange(events)
    ensures Refines(d, events, keep)
  {
    hide Refines;
    if events == [] {
      RefinesNil(d, keep);
    } else {
      var front, e := events[..|events| - 1], events[|events| - 1];
      RefinesBatch(d, front, keep);
      assert events == front + [e];
      if StartsSession(front, e) { RefinesNewSession(d, front, e, keep); } else { RefinesSameSession(d, front, e, keep); }
    }
  }

  // ---------------------------------------------------------------- what the emitted events say

  /** The screens shown in a session: the values of its screen and page views that name a screen, in order. */
  ghost predicate ShowsScreen(e: Event) {
    e.name in {"screen_view", "page_view"} && e.screen != None && e.screen != Some("")
  }

  /** `ps` are exactly the positions at which a screen is shown, in increasing order. */
  ghost predicate ShownAt(s: seq<Event>, ps: seq<nat>) {
    && (forall i :: 0 <= i < |ps| ==> ps[i] < |s| && ShowsScreen(s[ps[i]]))
    && (forall i, j :: 0 <= i < j < |ps| ==> ps[i] < ps[j])
    && (forall k :: 0 <= k < |s| && ShowsScreen(s[k]) ==> k in ps)
  }

  lemma {:induction false} ScreensAreShown(s: seq<Event>) returns (ps: seq<nat>)
    ensures ShownAt(s, ps) && |Screens(s)| == |ps|
    ensures forall i :: 0 <= i < |ps| ==> s[ps[i]].screen == Some(Screens(s)[i])
  {
    ps := [];
    if s != [] {
      var front, e := s[..|s| - 1], s[|s| - 1];
      ps := ScreensAreShown(front);
      assert forall k :: 0 <= k < |front| ==> s[k] == front[k];
      if IsScreen(e) {
        ShownSnoc(front, e, ps);
        assert s == front + [e];
        ps := ps + [|front|];
      }
    }
  }

  lemma ShownSnoc(front: seq<Event>, e: Event, ps: seq<nat>)
    requires ShownAt(front, ps) && ShowsScreen(e)
    ensures ShownAt(front + [e], ps + [|front|])
  {
    hide ShowsScreen;
    var s, qs := front + [e], ps + [|front|];
    assert s[|front|] == e && qs[|ps|] == |front|;
    forall k | 0 <= k < |s| && ShowsScreen(s[k]) ensures k in qs {
      if k < |front| { assert s[k] == front[k] && k in ps; }
    }
  }

  /** The user of a session is the first one named in it. */
  lemma {:induction false} FirstUserIsFirst(s: seq<Event>)
    ensures FirstUser(s) == "" <==> forall k :: 0 <= k < |s| ==> s[k].user == ""
    ensures FirstUser(s) != "" ==>
              exists k :: 0 <= k < |s| && s[k].user == FirstUser(s) && forall j :: 0 <= j < k ==> s[j].user == ""
  {
    if s != [] {
      var front := s[..|s| - 1];
      FirstUserIsFirst(front);
      assert forall k :: 0 <= k < |front| ==> s[k] == front[k];
      if FirstUser(front) == "" { assert s[|s| - 1].user == FirstUser(s); }
    }
  }

  /** A session_end, field by field, for session `s` when the next one begins with `next`. */
  ghost predicate ReportsEnd(d: Device, ev: SessionEvent, s: seq<Event>, next: Event) {
    && ev.SessionEnd? && s != []
    && ev.id == d.app + "-" + d.device + "-" + FormatInt(s[0].at)
    && ev.app == d.app && ev.device == d.device && ev.user == FirstUser(s)
    && ev.start == s[0].at && ev.end == next.at - 1 && ev.count == |s|
    && (ev.start <= ev.end ==> 1000 * ev.durationS <= ev.end - ev.start < 1000 * (ev.durationS + 1))
    && (ev.start > ev.end ==> 1000 * (ev.durationS - 1) < ev.end - ev.start <= 1000 * ev.durationS)
    && ev.screens == Screens(s)
    && (if Screens(s) == [] then ev.entry == "" && ev.exit == ""
        else ev.entry == Screens(s)[0] && ev.exit == Screens(s)[|Screens(s)| - 1])
  }

  /** A session_start for the session that begins with `first`. */
  ghost predicate ReportsStart(d: Device, ev: SessionEvent, first: Event) {
    && ev.SessionStart? && ev.id == d.app + "-" + d.device + "-" + FormatInt(first.at)
    && ev.app == d.app && ev.device == d.device && ev.user == first.user && ev.start == first.at
  }

  /** Every emitted event reports one of these sessions. */
  ghost predicate Reports(d: Device, ev: SessionEvent, ss: seq<seq<Event>>) {
    if ev.SessionEnd? then exists m :: 0 < m < |ss| && ss[m] != [] && ReportsEnd(d, ev, ss[m - 1], ss[m][0])
    else exists m :: 0 <= m < |ss| && ss[m] != [] && ReportsStart(d, ev, ss[m][0])
  }

  lemma EndReports(d: Device, s: seq<Event>, next: Event)
    requires s != []
    ensures ReportsEnd(d, EndEvent(Summary(d, s), next.at - 1), s, next)
  {
    hide FirstUser, Screens;
  }

  lemma StartReports(d: Device, first: Event)
    ensures ReportsStart(d, StartEvent(d, first), first)
  {
  }

  lemma ReportsMore(d: Device, ev: SessionEvent, init: seq<seq<Event>>, s: seq<Event>)
    requires Reports(d, ev, init)
    ensures Reports(d, ev, init + [s])
  {
    hide ReportsEnd, ReportsStart;
    var ss := init + [s];
    if ev.SessionEnd? {
      var m :| 0 < m < |init| && init[m] != [] && ReportsEnd(d, ev, init[m - 1], init[m][0]);
      assert ss[m] == init[m] && ss[m - 1] == init[m - 1];
    } else {
      var m :| 0 <= m < |init| && init[m] != [] && ReportsStart(d, ev, init[m][0]);
      assert ss[m] == init[m];
    }
  }

  lemma BoundaryReports(d: Device, init: seq<seq<Event>>, s: seq<Event>, keep: Option<int>, k: nat)
    requires s != []
    requires var b := Boundary(d, if init == [] then [] else init[|init| - 1], s[0], keep); k < |b|
    ensures Reports(d, Boundary(d, if init == [] then [] else init[|init| - 1], s[0], keep)[k], init + [s])
  {
    hide ReportsEnd, ReportsStart, EndEvent, StartEvent, Summary;
    var ss := init + [s];
    assert ss[|init|] == s;
    StartReports(d, s[0]);
    StartKind(d, s[0]);
    if init != [] && init[|init| - 1] != [] {
      assert ss[|init| - 1] == init[|init| - 1];
      EndReports(d, init[|init| - 1], s[0]);
      EndKind(Summary(d, init[|init| - 1]), s[0].at - 1);
    }
  }

  lemma StartKind(d: Device, e: Event)
    ensures StartEvent(d, e).SessionStart?
  {
  }

  lemma EndKind(s: State, end: int)
    ensures EndEvent(s, end).SessionEnd?
  {
  }

  lemma {:induction false} ExpectedReports(d: Device, ss: seq<seq<Event>>, keep: Option<int>, i: nat)
    requires (forall m :: 0 <= m < |ss| ==> ss[m] != []) && i < |Expected(d, ss, keep)|
    ensures Reports(d, Expected(d, ss, keep)[i], ss)
  {
    hide Boundary, Reports;
    var init, s := ss[..|ss| - 1], ss[|ss| - 1];
    assert ss == init + [s];
    ExpectedSnoc(d, init, s, keep);
    var n := |Expected(d, init, keep)|;
    if i < n {
      ExpectedReports(d, init, keep, i);
      ReportsMore(d, Expected(d, init, keep)[i], init, s);
    } else {
      BoundaryReports(d, init, s, keep, i - n);
    }
  }

  /**
   * In every run, also when Redis forgets after silences longer than `keep`: each emitted session_end says of a batch
   * session, field by field, what its events say, and that it ended a millisecond before the next session began; and
   * each session_start announces the first event of a batch session.
   */
  lemma EmittedEventsReport(d: Device, events: seq<Event>, keep: Option<int>, i: nat)
    requires keep.Some? ==> keep.value >= TIMEOUT_MS
    requires AllInRange(events) && i < |Run(d, events, Forgets(events, keep)).emitted|
    ensures Reports(d, Run(d, events, Forgets(events, keep)).emitted[i], Split(events))
  {
    RefinesBatch(d, events, keep);
    SessionsNonempty(events);
    hide Run, Split, Expected, Reports, Forgets, BatchIds, Summary, LastSession;
    ExpectedReports(d, Split(events), keep, i);
  }

  // ---------------------------------------------------------------- what the refinement means

  function CountStarts(emitted: seq<SessionEvent>): nat {
    if emitted == [] then 0
    else CountStarts(emitted[..|emitted| - 1]) + if emitted[|emitted| - 1].SessionStart? then 1 else 0
  }

  /** Events reported by the ends emitted. */
  function CountEnded(emitted: seq<SessionEvent>): int {
    if emitted == [] then 0
    else CountEnded(emitted[..|emitted| - 1]) + if emitted[|emitted| - 1].SessionEnd? then emitted[|emitted| - 1].count else 0
  }

  lemma CountBoundary(emitted: seq<SessionEvent>, d: Device, prev: seq<Event>, first: Event)
    ensures CountStarts(emitted + Boundary(d, prev, first, None)) == CountStarts(emitted) + 1
    ensures CountEnded(emitted + Boundary(d, prev, first, None)) == CountEnded(emitted) + |prev|
  {
    var start := StartEvent(d, first);
    assert (emitted + [start])[..|emitted|] == emitted;
    if prev != [] {
      var end := EndEvent(Summary(d, prev), first.at - 1);
      assert (emitted + [end])[..|emitted|] == emitted;
      assert (emitted + [end, start])[..|emitted| + 1] == emitted + [end];
    }
  }

  lemma {:induction false} CountExpected(d: Device, ss: seq<seq<Event>>)
    requires forall i :: 0 <= i < |ss| ==> ss[i] != []
    ensures CountStarts(Expected(d, ss, None)) == |ss|
    ensures CountEnded(Expected(d, ss, None)) == if ss == [] then 0 else |Flatten(ss)| - |ss[|ss| - 1]|
  {
    if ss != [] {
      var init, s := ss[..|ss| - 1], ss[|ss| - 1];
      assert ss == init + [s];
      CountExpected(d, init);
      hide Boundary;
      ExpectedSnoc(d, init, s, None);
      CountBoundary(Expected(d, init, None), d, if init == [] then [] else init[|init| - 1], s[0]);
    }
  }

  /**
   * With no loss of state nothing is lost or counted twice: one start per session, and the counts of the ends plus
   * the open session's count add up to the events processed.
   */
  lemma EventsConserved(d: Device, events: seq<Event>)
    requires AllInRange(events) && events != []
    ensures var out := Run(d, events, Forgets(events, None));
            && CountStarts(out.emitted) == |Split(events)|
            && out.state.Some? && CountEnded(out.emitted) + out.state.value.count == |events|
  {
    RefinesBatch(d, events, None);
    SessionsNonempty(events);
    SplitIsBatch(events);
    CountExpected(d, Split(events));
  }

  /** For events in time order the sessions of a device, each taken to its reported end, do not overlap. */
  lemma SessionsDisjoint(events: seq<Event>, i: nat, j: nat)
    requires InOrder(events) && i < j < |Split(events)|
    ensures var ss := Split(events);
            ss[i] != [] && ss[i + 1] != [] && ss[j] != []
            && ss[i][0].at <= ss[i][|ss[i]| - 1].at <= ss[i + 1][0].at - 1 < ss[j][0].at
  {
    hide Split, Flatten, InOrder;
    var ss := Split(events);
    SessionsNonempty(events);
    SplitFacts(events, i);
    FirstsInOrder(events, ss, i, 0, i, |ss[i]| - 1);
    FirstsInOrder(events, ss, i + 1, 0, j, 0);
  }

  /** Sessions in order: each one starts after the last event of the one before. */
  ghost predicate Successive(ss: seq<seq<Event>>) {
    && (forall m :: 0 <= m < |ss| ==> ss[m] != [])
    && (forall m :: 0 < m < |ss| ==> InSequence(ss[m - 1], ss[m]))
  }

  ghost predicate InSequence(s: seq<Event>, t: seq<Event>) {
    s != [] && t != [] && s[0].at <= s[|s| - 1].at < t[0].at
  }

  /** The intervals that the emitted ends report: in order, disjoint, and before `limit`. */
  ghost predicate IntervalsDisjoint(emitted: seq<SessionEvent>, limit: int) {
    && (forall i :: 0 <= i < |emitted| && emitted[i].SessionEnd? ==> emitted[i].start <= emitted[i].end < limit)
    && (forall i, j :: 0 <= i < j < |emitted| && emitted[i].SessionEnd? && emitted[j].SessionEnd? ==>
          emitted[i].end < emitted[j].start)
  }

  lemma AddStart(emitted: seq<SessionEvent>, start: SessionEvent, limit: int, later: int)
    requires IntervalsDisjoint(emitted, limit) && start.SessionStart? && limit <= later
    ensures IntervalsDisjoint(emitted + [start], later)
  {
  }

  lemma AddEnd(emitted: seq<SessionEvent>, end: SessionEvent, limit: int, later: int)
    requires IntervalsDisjoint(emitted, limit) && end.SessionEnd? && end.start == limit <= end.end < later
    ensures IntervalsDisjoint(emitted + [end], later)
  {
  }

  lemma AddBoundary(emitted: seq<SessionEvent>, d: Device, prev: seq<Event>, first: Event, keep: Option<int>)
    requires prev != [] && prev[0].at < first.at && IntervalsDisjoint(emitted, prev[0].at)
    ensures IntervalsDisjoint(emitted + Boundary(d, prev, first, keep), first.at)
  {
    var start, end := StartEvent(d, first), EndEvent(Summary(d, prev), first.at - 1);
    if keep.Some? && first.at - prev[|prev| - 1].at > keep.value {
      AddStart(emitted, start, prev[0].at, first.at);
    } else {
      AddEnd(emitted, end, prev[0].at, first.at);
      AddStart(emitted + [end], start, first.at, first.at);
      assert emitted + [end, start] == emitted + [end] + [start];
    }
  }

  lemma FirstDisjoint(d: Device, s: seq<Event>, keep: Option<int>)
    requires s != []
    ensures IntervalsDisjoint(Expected(d, [s], keep), s[0].at)
  {
    ExpectedSnoc(d, [], s, keep);
    assert [] + [s] == [s] && Expected(d, [], keep) == [];
  }

  lemma {:induction false} ExpectedDisjoint(d: Device, ss: seq<seq<Event>>, keep: Option<int>)
    requires Successive(ss) && ss != []
    ensures IntervalsDisjoint(Expected(d, ss, keep), ss[|ss| - 1][0].at)
  {
    hide Boundary, Expected, IntervalsDisjoint;
    var init, s := ss[..|ss| - 1], ss[|ss| - 1];
    assert ss == init + [s];
    if init == [] {
      FirstDisjoint(d, s, keep);
      assert ss == [s];
    } else {
      ExpectedDisjoint(d, init, keep);
      var prev := init[|init| - 1];
      assert InSequence(ss[|ss| - 2], ss[|ss| - 1]);
      assert prev == ss[|ss| - 2];
      hide Successive;
      ExpectedSnoc(d, init, s, keep);
      AddBoundary(Expected(d, init, keep), d, prev, s[0], keep);
    }
  }

  lemma SplitSuccessive(events: seq<Event>)
    requires InOrder(events)
    ensures Successive(Split(events))
  {
    hide Split, InOrder;
    var ss := Split(events);
    SessionsNonempty(events);
    forall m: nat | 0 < m < |ss| ensures InSequence(ss[m - 1], ss[m]) {
      SessionsDisjoint(events, m - 1, m);
    }
  }

  /**
   * For events in time order, also when Redis forgets after silences longer than `keep`: the [start, end] intervals that
   * the engine reports for a device are disjoint and in order, and the open session starts after them all.
   */
  lemma ReportedIntervalsDisjoint(d: Device, events: seq<Event>, keep: Option<int>)
    requires keep.Some? ==> keep.value >= TIMEOUT_MS
    requires AllInRange(events) && InOrder(events) && events != []
    ensures var out := Run(d, events, Forgets(events, keep));
            out.state.Some? && IntervalsDisjoint(out.emitted, out.state.value.start)
  {
    RefinesBatch(d, events, keep);
    SplitSuccessive(events);
    LastOfSplit(events);
    ExpectedDisjoint(d, Split(events), keep);
    hide Run, Split, Expected, IntervalsDisjoint, Successive, Forgets, BatchIds;
  }

  lemma SplitFacts(events: seq<Event>, i: nat)
    requires i + 1 < |Split(events)|
    ensures Flatten(Split(events)) == events && Apart(Split(events)[i], Split(events)[i + 1])
  {
    SplitIsBatch(events);
    hide Split, Flatten;
    assert Apart(Split(events)[i + 1 - 1], Split(events)[i + 1]);
  }

  ghost predicate InOrder(events: seq<Event>) {
    forall a, b :: 0 <= a <= b < |events| ==> events[a].at <= events[b].at
  }

  lemma FirstsInOrder(events: seq<Event>, ss: seq<seq<Event>>, i: nat, k: nat, j: nat, m: nat)
    requires InOrder(events) && Flatten(ss) == events
    requires i <= j < |ss| && k < |ss[i]| && m < |ss[j]| && (i == j ==> k <= m) && (i < j ==> k == m == 0)
    ensures ss[i][k].at <= ss[j][m].at
  {
    hide Flatten;
    PlaceOf(ss, i, k);
    PlaceOf(ss, j, m);
    PrefixLength(ss, i, j);
  }

  /** The position in the input of event `k` of session `i`. */
  lemma {:induction false} PlaceOf(ss: seq<seq<Event>>, i: nat, k: nat)
    requires i < |ss| && k < |ss[i]|
    ensures |Flatten(ss[..i])| + k < |Flatten(ss)| && Flatten(ss)[|Flatten(ss[..i])| + k] == ss[i][k]
  {
    var init := ss[..|ss| - 1];
    if i < |init| {
      PlaceOf(init, i, k);
      assert init[..i] == ss[..i];
    }
  }

  lemma {:induction false} PrefixLength(ss: seq<seq<Event>>, i: nat, j: nat)
    requires i <= j <= |ss|
    ensures |Flatten(ss[..i])| <= |Flatten(ss[..j])|
  {
    if i < j {
      PrefixLength(ss, i, j - 1);
      assert ss[..j] == ss[..j - 1] + [ss[j - 1]];
      FlattenSnoc(ss[..j - 1], ss[j - 1]);
    }
  }

  /** A loss of state changes no id when the gap closes the session anyway, or the event repeats its start time. */
  ghost predicate Harmless(events: seq<Event>, lost: seq<bool>)
    requires |lost| == |events|
  {
    forall i :: 0 < i < |events| && lost[i] ==> HarmlessAt(events[..i], events[i])
  }

  ghost predicate HarmlessAt(events: seq<Event>, e: Event) {
    events != [] ==>
      e.at - events[|events| - 1].at > TIMEOUT_MS || (LastSession(events) != [] && e.at == LastSession(events)[0].at)
  }

  lemma {:induction false} StateOfRun(d: Device, events: seq<Event>, lost: seq<bool>)
    requires |lost| == |events| && events != []
    ensures var out := Run(d, events, lost);
            && out.state.Some? && |out.ids| == |events|
            && out.state.value.last == events[|events| - 1].at
            && out.state.value.id == Id(d, out.state.value.start) == out.ids[|events| - 1]
  {
    var n := |events| - 1;
    if n > 0 {
      StateOfRun(d, events[..n], lost[..n]);
    }
  }

  lemma {:induction false} BatchIdsLast(d: Device, events: seq<Event>)
    requires events != []
    ensures |BatchIds(d, events)| == |events|
    ensures LastSession(events) != [] && BatchIds(d, events)[|events| - 1] == Id(d, LastSession(events)[0].at)
  {
    var front, e := events[..|events| - 1], events[|events| - 1];
    assert events == front + [e];
    BatchIdsSnoc(d, front, e);
    if front != [] {
      BatchIdsLast(d, front);
    }
  }

  lemma IdInjective(d: Device, a: int, b: int)
    requires Id(d, a) == Id(d, b)
    ensures a == b
  {
    var p := d.app + "-" + d.device + "-";
    assert Id(d, a)[|p|..] == FormatInt(a) && Id(d, b)[|p|..] == FormatInt(b);
    FormatIntInjective(a, b);
  }

  lemma HarmlessSnoc(events: seq<Event>, lost: seq<bool>, e: Event, l: bool)
    requires |lost| == |events|
    ensures Harmless(events + [e], lost + [l]) <==> Harmless(events, lost) && (l ==> HarmlessAt(events, e))
  {
    hide HarmlessAt;
    var es, ls := events + [e], lost + [l];
    forall i | 0 < i < |events| ensures es[..i] == events[..i] && es[i] == events[i] && ls[i] == lost[i] {
    }
    assert es[..|events|] == events;
    assert HarmlessAt([], e) by { EmptyIsHarmless(e); }
    if Harmless(es, ls) && |events| > 0 {
      assert ls[|events|] ==> HarmlessAt(es[..|events|], es[|events|]);
    }
  }

  lemma EmptyIsHarmless(e: Event)
    ensures HarmlessAt([], e)
  {
  }

  /** The id that Step gives, from the state left by a run whose ids were right. */
  lemma StepIdIff(d: Device, events: seq<Event>, stored: State, e: Event, l: bool)
    requires events != [] && InRange(events[|events| - 1].at) && InRange(e.at)
    requires stored.last == events[|events| - 1].at && LastSession(events) != []
    requires stored.id == Id(d, LastSession(events)[0].at)
    ensures var right := Id(d, if e.at - events[|events| - 1].at > TIMEOUT_MS then e.at else LastSession(events)[0].at);
            Step(d, if l then None else Some(stored), e).1 == right <==> (l ==> HarmlessAt(events, e))
  {
    hide LastSession;
    InactiveIsGap(stored.last, e.at);
    if Id(d, e.at) == Id(d, LastSession(events)[0].at) { IdInjective(d, e.at, LastSession(events)[0].at); }
    hide Id, Inactive, InRange;
  }

  /** The id of the next event, given that all ids so far are right. */
  lemma NextIdIff(d: Device, events: seq<Event>, lost: seq<bool>, e: Event, l: bool)
    requires |lost| == |events| && AllInRange(events + [e])
    requires Run(d, events, lost).ids == BatchIds(d, events)
    ensures Run(d, events + [e], lost + [l]).ids == BatchIds(d, events + [e]) <==> (l ==> HarmlessAt(events, e))
  {
    hide Run, BatchIds, HarmlessAt, Step, Split, LastSession, Id, InRange;
    var before := Run(d, events, lost);
    RunSnoc(d, events, lost, e, l);
    BatchIdsSnoc(d, events, e);
    SplitSnoc(events, e);
    var id := Step(d, if l then None else before.state, e).1;
    var right := Id(d, LastSession(events + [e])[0].at);
    assert (events + [e])[|events|] == e;
    if events == [] {
      RunNil(d, None);
      FirstIdIsRight(d, e);
      EmptyIsHarmless(e);
    } else {
      assert (events + [e])[|events| - 1] == events[|events| - 1];
      StateOfRun(d, events, lost);
      BatchIdsLast(d, events);
      StepIdIff(d, events, before.state.value, e, l);
      assert (LastSession(events) + [e])[0] == LastSession(events)[0];
    }
    IdCounts(d, events, lost);
    SnocEqual(before.ids, id, BatchIds(d, events), right);
  }

  lemma FirstIdIsRight(d: Device, e: Event)
    ensures Step(d, None, e).1 == Id(d, e.at)
    ensures Forgets([], None) == []
  {
  }

  /** Whatever Redis loses, the ids are those of batch sessionisation if and only if every loss was harmless. */
  lemma {:induction false} IdsRightIff(d: Device, events: seq<Event>, lost: seq<bool>)
    requires |lost| == |events| && AllInRange(events)
    ensures Run(d, events, lost).ids == BatchIds(d, events) <==> Harmless(events, lost)
  {
    if events != [] {
      var n := |events| - 1;
      var front, e, lfront, l := events[..n], events[n], lost[..n], lost[n];
      assert events == front + [e] && lost == lfront + [l];
      IdsRightIff(d, front, lfront);
      HarmlessSnoc(front, lfront, e, l);
      RunSnoc(d, front, lfront, e, l);
      BatchIdsSnoc(d, front, e);
      IdCounts(d, front, lfront);
      SnocEqual(Run(d, front, lfront).ids, Run(d, events, lost).ids[n], BatchIds(d, front), BatchIds(d, events)[n]);
      hide Run, BatchIds, Harmless, HarmlessAt, Step;
      if Run(d, front, lfront).ids == BatchIds(d, front) {
        NextIdIff(d, front, lfront, e, l);
      }
    }
  }

  lemma SnocEqual(a: seq<string>, x: string, b: seq<string>, y: string)
    requires |a| == |b|
    ensures a + [x] == b + [y] <==> a == b && x == y
  {
    assert (a + [x])[..|a|] == a && (a + [x])[|a|] == x;
    assert (b + [y])[..|b|] == b && (b + [y])[|b|] == y;
  }

  lemma {:induction false} IdCounts(d: Device, events: seq<Event>, lost: seq<bool>)
    requires |lost| == |events|
    ensures |Run(d, events, lost).ids| == |events| == |BatchIds(d, events)|
  {
    if events != [] {
      StateOfRun(d, events, lost);
      BatchIdsLast(d, events);
    }
  }

  // ---------------------------------------------------------------- with the real expiry of Redis

  datatype Arrival = Arrival(d: Device, e: Event)

  /** Redis after a trace of events of any devices, its clock agreeing with the events' server times. */
  function StoreAfter(trace: seq<Arrival>): Store {
    if trace == [] then map[]
    else
      var before, a := StoreAfter(trace[..|trace| - 1]), trace[|trace| - 1];
      before[Key(a.d) := Saved(Step(a.d, Load(before, Key(a.d), a.e.at), a.e).0, a.e.at + TTL_MS)]
  }

  function EventsOf(trace: seq<Arrival>, d: Device): seq<Event> {
    if trace == [] then []
    else
      var front, a := EventsOf(trace[..|trace| - 1], d), trace[|trace| - 1];
      if a.d == d then front + [a.e] else front
  }

  function IdsOf(trace: seq<Arrival>, d: Device): seq<string> {
    if trace == [] then []
    else
      var before, a := trace[..|trace| - 1], trace[|trace| - 1];
      if a.d == d then IdsOf(before, d) + [Step(d, Load(StoreAfter(before), Key(d), a.e.at), a.e).1] else IdsOf(before, d)
  }

  function EmittedOf(trace: seq<Arrival>, d: Device): seq<SessionEvent> {
    if trace == [] then []
    else
      var before, a := trace[..|trace| - 1], trace[|trace| - 1];
      if a.d == d then EmittedOf(before, d) + Step(d, Load(StoreAfter(before), Key(d), a.e.at), a.e).2
      else EmittedOf(before, d)
  }

  /** No other device in the trace shares the Redis key of `d`. */
  ghost predicate OwnKey(trace: seq<Arrival>, d: Device) {
    forall i :: 0 <= i < |trace| && trace[i].d != d ==> Key(trace[i].d) != Key(d)
  }

  /** Keys separate devices when app ids contain no ':'. */
  lemma KeysSeparate(x: Device, y: Device)
    requires ':' !in x.app && ':' !in y.app && Key(x) == Key(y)
    ensures x == y
  {
    var p := "session:state:";
    var s := x.app + ":" + x.device;
    assert Key(x)[|p|..] == s && Key(y)[|p|..] == y.app + ":" + y.device;
    assert s[|x.app|] == ':' && s[|y.app|] == ':';
    assert forall k :: 0 <= k < |x.app| ==> s[k] == x.app[k] != ':';
    assert forall k :: 0 <= k < |y.app| ==> s[k] == y.app[k] != ':';
    assert |x.app| == |y.app|;
    assert x.app == s[..|x.app|] == y.app;
    assert x.device == s[|x.app| + 1..] == y.device;
  }

  lemma KeysClash()
    ensures var x, y := Device("a:b", "c"), Device("a", "b:c"); x != y && Key(x) == Key(y)
  {
    assert Key(Device("a:b", "c")) == "session:state:a:b:c" == Key(Device("a", "b:c"));
  }

  ghost predicate TracksDevice(trace: seq<Arrival>, d: Device) {
    var events := EventsOf(trace, d);
    var out := Run(d, events, Forgets(events, Some(TTL_MS)));
    && IdsOf(trace, d) == out.ids && EmittedOf(trace, d) == out.emitted
    && if events == [] then Key(d) !in StoreAfter(trace)
       else out.state.Some? && Key(d) in StoreAfter(trace)
            && StoreAfter(trace)[Key(d)] == Saved(out.state.value, events[|events| - 1].at + TTL_MS)
  }

  lemma TraceSnoc(trace: seq<Arrival>, a: Arrival)
    ensures var out := Step(a.d, Load(StoreAfter(trace), Key(a.d), a.e.at), a.e);
            && StoreAfter(trace + [a]) == StoreAfter(trace)[Key(a.d) := Saved(out.0, a.e.at + TTL_MS)]
            && EventsOf(trace + [a], a.d) == EventsOf(trace, a.d) + [a.e]
            && IdsOf(trace + [a], a.d) == IdsOf(trace, a.d) + [out.1]
            && EmittedOf(trace + [a], a.d) == EmittedOf(trace, a.d) + out.2
  {
    hide Step, Load, Key;
    assert (trace + [a])[..|trace|] == trace;
  }

  lemma RunNil(d: Device, keep: Option<int>)
    ensures Run(d, [], Forgets([], keep)) == Out(None, [], [])
  {
  }

  lemma ArrivalTracked(trace: seq<Arrival>, a: Arrival)
    requires TracksDevice(trace, a.d)
    ensures TracksDevice(trace + [a], a.d)
  {
    hide Run, Step, Forgets, Key, StoreAfter, EventsOf, IdsOf, EmittedOf;
    var d, e := a.d, a.e;
    var events := EventsOf(trace, d);
    var l := events != [] && e.at - events[|events| - 1].at > TTL_MS;
    TraceSnoc(trace, a);
    ForgetsSnoc(events, e, Some(TTL_MS));
    RunSnoc(d, events, Forgets(events, Some(TTL_MS)), e, l);
    RunNil(d, Some(TTL_MS));
    var before := Run(d, events, Forgets(events, Some(TTL_MS)));
    assert Load(StoreAfter(trace), Key(d), e.at) == if l then None else before.state;
  }

  lemma OtherTracked(trace: seq<Arrival>, a: Arrival, d: Device)
    requires TracksDevice(trace, d) && a.d != d && Key(a.d) != Key(d)
    ensures TracksDevice(trace + [a], d)
  {
    assert (trace + [a])[..|trace|] == trace;
    hide Run, Step, Forgets, Key;
  }

  /** A device among others behaves as if alone, with its state forgotten after every silence longer than 35 minutes. */
  lemma {:induction false} StoreRunsDevice(trace: seq<Arrival>, d: Device)
    requires OwnKey(trace, d)
    ensures TracksDevice(trace, d)
  {
    hide TracksDevice, Key;
    if trace == [] {
      NothingTracked(d);
    } else {
      var front, a := trace[..|trace| - 1], trace[|trace| - 1];
      StoreRunsDevice(front, d);
      assert trace == front + [a];
      if a.d == d { ArrivalTracked(front, a); } else { OtherTracked(front, a, d); }
    }
  }

  lemma NothingTracked(d: Device)
    ensures TracksDevice([], d)
  {
  }

  function CountEnds(emitted: seq<SessionEvent>): nat {
    if emitted == [] then 0
    else CountEnds(emitted[..|emitted| - 1]) + if emitted[|emitted| - 1].SessionEnd? then 1 else 0
  }

  /** The silence between two sessions. */
  function Silence(s: seq<Event>, t: seq<Event>): int
    requires s != [] && t != []
  {
    t[0].at - s[|s| - 1].at
  }

  lemma BoundaryEnds(emitted: seq<SessionEvent>, d: Device, prev: seq<Event>, first: Event, keep: int)
    ensures CountEnds(emitted + Boundary(d, prev, first, Some(keep)))
            == CountEnds(emitted) + if prev != [] && first.at - prev[|prev| - 1].at <= keep then 1 else 0
  {
    var start := StartEvent(d, first);
    assert (emitted + [start])[..|emitted|] == emitted;
    if prev != [] {
      var end := EndEvent(Summary(d, prev), first.at - 1);
      assert (emitted + [end])[..|emitted|] == emitted;
      assert (emitted + [end, start])[..|emitted| + 1] == emitted + [end];
    }
  }

  ghost predicate AllShort(ss: seq<seq<Event>>, keep: int)
    requires forall i :: 0 <= i < |ss| ==> ss[i] != []
  {
    forall i :: 0 < i < |ss| ==> Silence(ss[i - 1], ss[i]) <= keep
  }

  lemma {:induction false} EndsOfExpected(d: Device, ss: seq<seq<Event>>, keep: int)
    requires forall i :: 0 <= i < |ss| ==> ss[i] != []
    ensures ss != [] ==> CountEnds(Expected(d, ss, Some(keep))) <= |ss| - 1
    ensures ss != [] ==> (CountEnds(Expected(d, ss, Some(keep))) == |ss| - 1 <==> AllShort(ss, keep))
    ensures ss == [] ==> CountEnds(Expected(d, ss, Some(keep))) == 0
  {
    if ss != [] {
      var init, s := ss[..|ss| - 1], ss[|ss| - 1];
      assert ss == init + [s];
      EndsOfExpected(d, init, keep);
      ExpectedSnoc(d, init, s, Some(keep));
      BoundaryEnds(Expected(d, init, Some(keep)), d, if init == [] then [] else init[|init| - 1], s[0], keep);
      hide Boundary, Expected;
      if init != [] {
        assert AllShort(ss, keep) <==> AllShort(init, keep) && Silence(init[|init| - 1], s) <= keep by {
          ShortSnoc(init, s, keep);
        }
      }
    }
  }

  lemma ShortSnoc(init: seq<seq<Event>>, s: seq<Event>, keep: int)
    requires init != [] && s != [] && forall i :: 0 <= i < |init| ==> init[i] != []
    ensures (forall i :: 0 <= i < |init + [s]| ==> (init + [s])[i] != [])
    ensures AllShort(init + [s], keep) <==> AllShort(init, keep) && Silence(init[|init| - 1], s) <= keep
  {
    var ss := init + [s];
    assert ss[|init|] == s && ss[|init| - 1] == init[|init| - 1];
    hide Silence;
    if AllShort(ss, keep) {
      forall i | 0 < i < |init| ensures Silence(init[i - 1], init[i]) <= keep {
        assert ss[i - 1] == init[i - 1] && ss[i] == init[i];
      }
      assert Silence(ss[|init| - 1], ss[|init|]) <= keep;
    }
  }

  /**
   * "Emits session_end" holds for every closed session of a device if and only if none of its silences outlasted the
   * 35 minutes that Redis keeps the state: after a longer one the next event finds no session to end.
   */
  lemma EverySessionEndsIff(trace: seq<Arrival>, d: Device)
    requires OwnKey(trace, d) && AllInRange(EventsOf(trace, d)) && EventsOf(trace, d) != []
    ensures var ss := Split(EventsOf(trace, d));
            && (forall i :: 0 <= i < |ss| ==> ss[i] != [])
            && IdsOf(trace, d) == BatchIds(d, EventsOf(trace, d))
            && (CountEnds(EmittedOf(trace, d)) == |ss| - 1 <==> AllShort(ss, 2_100_000))
  {
    var events := EventsOf(trace, d);
    StoreRunsDevice(trace, d);
    RefinesBatch(d, events, Some(TTL_MS));
    SessionsNonempty(events);
    EndsOfExpected(d, Split(events), TTL_MS);
  }
}
