/** The per-session limit on client error reports, and the sampling of dropped noise. */
module ReportLimiter {
  import opened Options
  import opened Sequences

  const WINDOW := 60000
  const PER_WINDOW := 30
  const MAX_SESSIONS := 5000

  datatype Slot = Slot(start: int, n: nat)

  datatype State = State(noiseSampleAt: int, slots: map<string, Slot>)

  /** One report: when, from which session, and whether it is the browser's noise. */
  datatype Report = Report(now: int, sid: string, noise: bool)

  const FRESH := State(0, map[])

  function SessionOf(r: Report): string {
    if r.sid == "" then "anon" else r.sid
  }

  predicate NeedsSlot(s: State, r: Report) {
    SessionOf(r) !in s.slots || r.now - s.slots[SessionOf(r)].start > WINDOW
  }

  /** This report makes the map drop every session. */
  predicate Clears(s: State, r: Report) {
    !r.noise && NeedsSlot(s, r) && |s.slots| > MAX_SESSIONS
  }

  function SlotAfter(s: State, r: Report): Slot {
    if NeedsSlot(s, r) then Slot(r.now, 1)
    else s.slots[SessionOf(r)].(n := s.slots[SessionOf(r)].n + 1)
  }

  predicate Logs(s: State, r: Report) {
    !r.noise && SlotAfter(s, r).n <= PER_WINDOW
  }

  predicate Samples(s: State, r: Report) {
    r.noise && r.now - s.noiseSampleAt > WINDOW
  }

  function Step(s: State, r: Report): State {
    if r.noise then (if Samples(s, r) then s.(noiseSampleAt := r.now) else s)
    else s.(slots := (if Clears(s, r) then map[] else s.slots)[SessionOf(r) := SlotAfter(s, r)])
  }

  /** The worker's module-level throttling state. */
  class Limiter {
    var noiseSampleAt: int
    var reportsBySession: map<string, Slot>

    function Now(): State
      reads this
    {
      State(noiseSampleAt, reportsBySession)
    }

    constructor ()
      ensures Now() == FRESH
    {
      noiseSampleAt, reportsBySession := 0, map[];
    }

    method ReportError(r: Report) returns (logged: bool, sampled: bool)
      modifies this
      ensures Now() == Step(old(Now()), r)
      ensures logged <==> Logs(old(Now()), r)
      ensures sampled <==> Samples(old(Now()), r)
    {
      logged, sampled := false, false;
      if r.noise {
        if r.now - noiseSampleAt > WINDOW {
          noiseSampleAt := r.now;
          sampled := true;
        }
        return;
      }
      var sid := if r.sid == "" then "anon" else r.sid;
      var slot;
      if sid !in reportsBySession || r.now - reportsBySession[sid].start > WINDOW {
        slot := Slot(r.now, 0);
        if |reportsBySession| > MAX_SESSIONS { reportsBySession := map[]; }
      } else {
        slot := reportsBySession[sid];
      }
      slot := slot.(n := slot.n + 1);
      reportsBySession := reportsBySession[sid := slot];
      logged := slot.n <= PER_WINDOW;
    }
  }

  // ----- runs -----

  function After(rs: seq<Report>): State {
    if rs == [] then FRESH else Step(After(rs[..|rs| - 1]), rs[|rs| - 1])
  }

  predicate Clocked(rs: seq<Report>) {
    forall i, j :: 0 <= i < j < |rs| ==> rs[i].now <= rs[j].now
  }

  predicate Within(r: Report, from: int) {
    from <= r.now <= from + WINDOW
  }

  /** How many reports of a session were logged in the closed window that starts at `from`. */
  function Logged(rs: seq<Report>, sid: string, from: int): nat {
    if rs == [] then 0
    else
      var before, last := rs[..|rs| - 1], rs[|rs| - 1];
      Logged(before, sid, from) +
      (if SessionOf(last) == sid && Within(last, from) && Logs(After(before), last) then 1 else 0)
  }

  /** How often the map was cleared in that window. */
  function Cleared(rs: seq<Report>, from: int): nat {
    if rs == [] then 0
    else
      var before, last := rs[..|rs| - 1], rs[|rs| - 1];
      Cleared(before, from) + (if Within(last, from) && Clears(After(before), last) then 1 else 0)
  }

  /** The most one session logs in a closed window: a slot that reaches into it from before spent one report there. */
  const MOST := 2 * PER_WINDOW - 1

  /** At most this many logs fit once the session's slot is known; `extra` is what clears may add. */
  predicate Bounded(slot: Option<Slot>, logged: nat, extra: nat, from: int, last: int) {
    (last < from ==> logged == 0) &&
    match slot
    case None => logged <= PER_WINDOW - 1 + extra || (last > from + WINDOW && logged <= MOST + extra)
    case Some(s) =>
      s.start <= last && s.n > 0 &&
      if s.start < from then logged <= Min(s.n, PER_WINDOW) - 1 + extra
      else if s.start <= from + WINDOW then logged <= PER_WINDOW - 1 + Min(s.n, PER_WINDOW) + extra
      else logged <= MOST + extra
  }

  function SlotOf(s: State, sid: string): Option<Slot> {
    if sid in s.slots then Some(s.slots[sid]) else None
  }

  lemma {:induction false} LimitHolds(rs: seq<Report>, sid: string, from: int)
    requires rs != [] && Clocked(rs)
    ensures Bounded(SlotOf(After(rs), sid), Logged(rs, sid, from), PER_WINDOW * Cleared(rs, from), from,
              rs[|rs| - 1].now)
    decreases rs
  {
    var before, last := rs[..|rs| - 1], rs[|rs| - 1];
    if before != [] {
      LimitHolds(before, sid, from);
      assert before[|before| - 1] == rs[|rs| - 2];
    } else {
      assert After(before) == FRESH;
    }
  }

  /**
   * In any closed window of a minute one session logs at most 59 reports, 30 more for each time the
   * session map is cleared in it.
   */
  lemma AtMostTwoSlots(rs: seq<Report>, sid: string, from: int)
    requires Clocked(rs)
    ensures Logged(rs, sid, from) <= MOST + PER_WINDOW * Cleared(rs, from)
  {
    if rs != [] { LimitHolds(rs, sid, from); }
  }

  function Burst(sid: string, now: int, count: nat): seq<Report> {
    if count == 0 then [] else Burst(sid, now, count - 1) + [Report(now, sid, false)]
  }

  lemma OneMore(rs: seq<Report>, r: Report, sid: string, from: int)
    ensures After(rs + [r]) == Step(After(rs), r)
    ensures Logged(rs + [r], sid, from)
         == Logged(rs, sid, from) + (if SessionOf(r) == sid && Within(r, from) && Logs(After(rs), r) then 1 else 0)
  {
    LastOf(rs, r);
  }

  /** After `rs` the session has this slot and that many logged reports. */
  predicate Stands(rs: seq<Report>, sid: string, slot: Slot, logged: nat, from: int) {
    SlotOf(After(rs), sid) == Some(slot) && Logged(rs, sid, from) == logged
  }

  /** A report that still fits its slot is logged. */
  lemma FitsSlot(rs: seq<Report>, sid: string, slot: Slot, logged: nat, now: int, from: int)
    requires sid != "" && Stands(rs, sid, slot, logged, from) && from <= now <= from + WINDOW
    requires now - slot.start <= WINDOW && slot.n < PER_WINDOW
    ensures Stands(rs + [Report(now, sid, false)], sid, Slot(slot.start, slot.n + 1), logged + 1, from)
  {
    OneMore(rs, Report(now, sid, false), sid, from);
  }

  /** Opening a slot, for the first time or after the old one ran out. */
  lemma OpensSlot(rs: seq<Report>, sid: string, now: int, from: int)
    requires sid != "" && now <= from + WINDOW
    requires sid in After(rs).slots ==> now - After(rs).slots[sid].start > WINDOW
    ensures Stands(rs + [Report(now, sid, false)], sid, Slot(now, 1),
              Logged(rs, sid, from) + (if from <= now then 1 else 0), from)
  {
    OneMore(rs, Report(now, sid, false), sid, from);
  }

  /** `count` more reports fit the slot that stands after `rs`. */
  predicate HasRoom(slot: Slot, now: int, count: nat, from: int) {
    from <= now <= from + WINDOW && now - slot.start <= WINDOW && slot.n + count <= PER_WINDOW
  }

  predicate StandsAfter(rs: seq<Report>, sid: string, slot: Slot, logged: nat, now: int, count: nat, from: int) {
    Stands(rs + Burst(sid, now, count), sid, Slot(slot.start, slot.n + count), logged + count, from)
  }

  lemma BurstStarts(rs: seq<Report>, sid: string, slot: Slot, logged: nat, now: int, from: int)
    requires Stands(rs, sid, slot, logged, from)
    ensures StandsAfter(rs, sid, slot, logged, now, 0, from)
  {
    Unit(rs);
  }

  lemma BurstOneMore(rs: seq<Report>, sid: string, now: int, count: nat)
    ensures rs + Burst(sid, now, count + 1) == (rs + Burst(sid, now, count)) + [Report(now, sid, false)]
  {
    Associative(rs, Burst(sid, now, count), [Report(now, sid, false)]);
  }

  lemma BurstGoesOn(rs: seq<Report>, sid: string, slot: Slot, logged: nat, now: int, count: nat, from: int)
    requires sid != "" && HasRoom(slot, now, count + 1, from) && StandsAfter(rs, sid, slot, logged, now, count, from)
    ensures StandsAfter(rs, sid, slot, logged, now, count + 1, from)
  {
    BurstOneMore(rs, sid, now, count);
    FitsSlot(rs + Burst(sid, now, count), sid, Slot(slot.start, slot.n + count), logged + count, now, from);
  }

  /** A whole burst that fits the slot is logged. */
  lemma {:induction false} BurstIsLogged(rs: seq<Report>, sid: string, slot: Slot, logged: nat, now: int, count: nat,
      from: int)
    requires sid != "" && Stands(rs, sid, slot, logged, from) && HasRoom(slot, now, count, from)
    ensures StandsAfter(rs, sid, slot, logged, now, count, from)
    decreases count
  {
    if count == 0 {
      BurstStarts(rs, sid, slot, logged, now, from);
    } else {
      BurstIsLogged(rs, sid, slot, logged, now, count - 1, from);
      BurstGoesOn(rs, sid, slot, logged, now, count - 1, from);
    }
  }

  lemma {:induction false} BurstTimes(sid: string, now: int, count: nat)
    ensures forall i :: 0 <= i < |Burst(sid, now, count)| ==> Burst(sid, now, count)[i] == Report(now, sid, false)
  {
    if count > 0 { BurstTimes(sid, now, count - 1); }
  }

  predicate OnlySession(rs: seq<Report>, sid: string) {
    forall i :: 0 <= i < |rs| ==> SessionOf(rs[i]) == sid
  }

  lemma {:induction false} OneSessionNeverClears(rs: seq<Report>, sid: string, from: int)
    requires OnlySession(rs, sid)
    ensures After(rs).slots.Keys <= {sid} && Cleared(rs, from) == 0
    decreases rs
  {
    if rs != [] {
      var before := rs[..|rs| - 1];
      assert OnlySession(before, sid);
      OneSessionNeverClears(before, sid, from);
      var keys := After(before).slots.Keys;
      assert keys == {} || keys == {sid};
      assert |After(before).slots| == |keys|;
    }
  }

  /** One report, a burst a minute later, and another burst right after. */
  function Worst(sid: string, count: nat): seq<Report> {
    [Report(0, sid, false)] + Burst(sid, WINDOW, count) + [Report(WINDOW + 1, sid, false)] +
      Burst(sid, WINDOW + 1, count)
  }

  lemma WorstIsClocked(sid: string, count: nat)
    requires sid != ""
    ensures Clocked(Worst(sid, count)) && OnlySession(Worst(sid, count), sid)
  {
    BurstTimes(sid, WINDOW, count);
    BurstTimes(sid, WINDOW + 1, count);
  }

  lemma WorstIsLogged(sid: string, count: nat)
    requires sid != "" && count < PER_WINDOW
    ensures Logged(Worst(sid, count), sid, WINDOW) == 2 * count + 1
  {
    var one := [Report(0, sid, false)];
    Unit(one);
    OpensSlot([], sid, 0, WINDOW);
    BurstIsLogged(one, sid, Slot(0, 1), 0, WINDOW, count, WINDOW);
    var first := one + Burst(sid, WINDOW, count);
    OpensSlot(first, sid, WINDOW + 1, WINDOW);
    BurstIsLogged(first + [Report(WINDOW + 1, sid, false)], sid, Slot(WINDOW + 1, 1), count + 1, WINDOW + 1, count,
      WINDOW);
  }

  /** The bound is reached by a run that clears nothing. */
  lemma BoundIsReached(sid: string)
    requires sid != ""
    ensures exists rs, from :: Clocked(rs) && Cleared(rs, from) == 0 && Logged(rs, sid, from) == MOST
  {
    var count: nat := PER_WINDOW - 1;
    WorstIsClocked(sid, count);
    WorstIsLogged(sid, count);
    OneSessionNeverClears(Worst(sid, count), sid, WINDOW);
    assert Logged(Worst(sid, count), sid, WINDOW) == MOST;
  }

  /** The session map never outgrows its bound. */
  lemma {:induction false} MapStaysSmall(rs: seq<Report>)
    ensures |After(rs).slots| <= MAX_SESSIONS + 1
    decreases rs
  {
    if rs != [] {
      var s, r := After(rs[..|rs| - 1]), rs[|rs| - 1];
      MapStaysSmall(rs[..|rs| - 1]);
      if !r.noise && !Clears(s, r) {
        var more := s.slots[SessionOf(r) := SlotAfter(s, r)];
        assert more.Keys == s.slots.Keys + {SessionOf(r)};
        if SessionOf(r) in s.slots { assert more.Keys == s.slots.Keys; }
        assert |more| == |more.Keys| && |s.slots| == |s.slots.Keys|;
      }
    }
  }

  lemma {:induction false} SampleIsRemembered(rs: seq<Report>, i: nat, n: nat)
    requires Clocked(rs) && i < n <= |rs| && Samples(After(rs[..i]), rs[i])
    ensures After(rs[..n]).noiseSampleAt >= rs[i].now
    decreases n
  {
    assert rs[..n][..n - 1] == rs[..n - 1];
    if n > i + 1 { SampleIsRemembered(rs, i, n - 1); }
  }

  /** Two noise samples are always more than a minute apart. */
  lemma SamplesAreApart(rs: seq<Report>, i: nat, j: nat)
    requires Clocked(rs) && i < j < |rs|
    requires Samples(After(rs[..i]), rs[i]) && Samples(After(rs[..j]), rs[j])
    ensures rs[j].now - rs[i].now > WINDOW
  {
    SampleIsRemembered(rs, i, j);
  }

  // ----- when a report is logged, and noise sampled -----

  /** The noise report at `i` is kept as a sample. */
  predicate SampledAt(rs: seq<Report>, i: int)
    requires 0 <= i < |rs|
  {
    Samples(After(rs[..i]), rs[i])
  }

  /** No sample was taken less than a minute, or a minute, before. */
  predicate NoRecentSample(rs: seq<Report>, n: nat, now: int)
    requires n <= |rs|
  {
    forall k :: 0 <= k < n && SampledAt(rs, k) ==> now - rs[k].now > 60000
  }

  lemma AfterOneMore(rs: seq<Report>, n: nat)
    requires n < |rs|
    ensures After(rs[..n + 1]) == Step(After(rs[..n]), rs[n])
  {
    assert rs[..n + 1][..n] == rs[..n];
  }

  lemma {:induction false} LastSample(rs: seq<Report>, n: nat)
    requires Clocked(rs) && n <= |rs|
    ensures var at := After(rs[..n]).noiseSampleAt;
            at >= 0 && (forall k :: 0 <= k < n && SampledAt(rs, k) ==> rs[k].now <= at) &&
            (at == 0 || exists k :: 0 <= k < n && SampledAt(rs, k) && rs[k].now == at)
    decreases n
  {
    if n > 0 {
      LastSample(rs, n - 1);
      AfterOneMore(rs, n - 1);
      if SampledAt(rs, n - 1) {
        assert forall k :: 0 <= k < n ==> rs[k].now <= rs[n - 1].now;
      }
    }
  }

  /** Noise is sampled exactly when more than a minute has passed since the clock's start and every sample. */
  lemma SampledExactly(rs: seq<Report>, i: nat)
    requires Clocked(rs) && i < |rs|
    ensures SampledAt(rs, i) <==> rs[i].noise && rs[i].now > 60000 && NoRecentSample(rs, i, rs[i].now)
  {
    LastSample(rs, i);
  }

  /** A session without an id counts as one. */
  lemma SessionIs(r: Report)
    ensures r.sid != "" ==> SessionOf(r) == r.sid
    ensures r.sid == "" ==> SessionOf(r) == "anon"
  {
  }

  /** No other session is forgotten while the map holds at most 5000, and then all are. */
  lemma ForgetsExactly(s: State, r: Report, sid: string)
    requires sid in s.slots && sid != SessionOf(r)
    ensures sid !in Step(s, r).slots <==>
              !r.noise && |s.slots| > 5000 &&
              (SessionOf(r) !in s.slots || r.now - s.slots[SessionOf(r)].start > 60000)
    ensures sid in Step(s, r).slots ==> Step(s, r).slots[sid] == s.slots[sid]
  {
  }

  /** A report that opens a slot is logged; one in an open slot is the next of its thirty. */
  lemma LogsExactly(s: State, r: Report)
    requires !r.noise
    ensures SessionOf(r) in Step(s, r).slots
    ensures var open := SessionOf(r) in s.slots && r.now - s.slots[SessionOf(r)].start <= 60000;
            var after := Step(s, r).slots[SessionOf(r)];
            (!open ==> Logs(s, r) && after.start == r.now && after.n == 1) &&
            (open ==> after.start == s.slots[SessionOf(r)].start && after.n == s.slots[SessionOf(r)].n + 1 &&
                      (Logs(s, r) <==> s.slots[SessionOf(r)].n < 30))
  {
  }
}
