/** The events around a running archiver: output, complaints, the stall timer, failure and exit. */
module Archiver {
  import opened Options
  import opened Trimming
  import opened Sequences

  const STALL_MS := 2 * 60 * 1000
  const STDERR_MAX := 4096

  /** What the client is told: progress, and once the end, with what the archiver complained about. */
  datatype Push = Progress(percent: int) | Exit(code: Option<int>, error: Option<string>)

  /** `stall` is when the armed stall timer is due. */
  datatype State = State(ended: bool, stderr: string, stall: Option<int>, progress: int, sent: seq<Push>)

  /** An event and its time; a process killed by a signal exits without a code. */
  datatype Event =
    | Stdout(now: int, percent: Option<int>)
    | Stderr(now: int, text: string)
    | Timer(now: int)
    | Failed(now: int, text: string)
    | Exited(now: int, code: Option<int>)

  const START := State(false, "", None, 0, [])

  function Ended(s: State, code: Option<int>): State {
    if s.ended then s
    else
      var error := if code != Some(0) && s.stderr != "" then Some(Trim(s.stderr)) else None;
      s.(ended := true, stall := None, sent := s.sent + [Exit(code, error)])
  }

  function Watched(s: State, now: int): State {
    s.(stall := Some(now + STALL_MS))
  }

  function Step(s: State, e: Event): State {
    match e
    case Stdout(now, percent) =>
      var w := if s.stall.Some? && !s.ended then Watched(s, now) else s;
      if percent.Some? && percent.value > w.progress
      then w.(progress := percent.value, sent := w.sent + [Progress(percent.value)])
      else w
    case Stderr(now, text) =>
      var t := if |s.stderr| < STDERR_MAX then s.(stderr := s.stderr + text) else s;
      if t.ended then t else Watched(t, now)
    case Timer(_) => if s.ended then s else Ended(s.(stderr := s.stderr + "\narchiver stalled"), Some(1))
    case Failed(_, text) => Ended(s.(stderr := s.stderr + text), Some(1))
    case Exited(_, code) => Ended(s, code)
  }

  /** The worker's variables, changed by the event handlers. */
  class Watcher {
    var ended: bool
    var stderr: string
    var stall: Option<int>
    var progress: int
    var sent: seq<Push>

    function Now(): State
      reads this
    {
      State(ended, stderr, stall, progress, sent)
    }

    constructor ()
      ensures Now() == START
    {
      ended, stderr, stall, progress, sent := false, "", None, 0, [];
    }

    method Watch(now: int)
      modifies `stall
      ensures Now() == Watched(old(Now()), now)
    {
      stall := Some(now + STALL_MS);
    }

    method End(code: Option<int>)
      modifies this
      ensures Now() == Ended(old(Now()), code)
    {
      if ended { return; }
      ended := true;
      stall := None;
      var error := if code != Some(0) && stderr != "" then Some(Trim(stderr)) else None;
      sent := sent + [Exit(code, error)];
    }

    method OnStdout(now: int, percent: Option<int>)
      modifies this
      ensures Now() == Step(old(Now()), Stdout(now, percent))
    {
      if stall.Some? && !ended { Watch(now); }
      if percent.Some? && percent.value > progress {
        progress := percent.value;
        sent := sent + [Progress(percent.value)];
      }
    }

    method OnStderr(now: int, text: string)
      modifies this
      ensures Now() == Step(old(Now()), Stderr(now, text))
    {
      if |stderr| < STDERR_MAX { stderr := stderr + text; }
      if !ended { Watch(now); }
    }

    method OnTimer(now: int)
      modifies this
      ensures Now() == Step(old(Now()), Timer(now))
    {
      if ended { return; }
      stderr := stderr + "\narchiver stalled";
      End(Some(1));
    }

    method OnFailed(now: int, text: string)
      modifies this
      ensures Now() == Step(old(Now()), Failed(now, text))
    {
      stderr := stderr + text;
      End(Some(1));
    }

    method OnExited(now: int, code: Option<int>)
      modifies this
      ensures Now() == Step(old(Now()), Exited(now, code))
    {
      End(code);
    }
  }

  // ----- runs -----

  function After(es: seq<Event>): State {
    if es == [] then START else Step(After(es[..|es| - 1]), es[|es| - 1])
  }

  /** Time goes on, and a timer fires only when armed and due; it may be handled late. */
  predicate Legal(es: seq<Event>) {
    es == [] ||
    var before, last := es[..|es| - 1], es[|es| - 1];
    Legal(before) && (before != [] ==> before[|before| - 1].now <= last.now) &&
    (last.Timer? ==> After(before).stall.Some? && After(before).stall.value <= last.now)
  }

  function Exits(sent: seq<Push>): nat {
    if sent == [] then 0 else Exits(sent[..|sent| - 1]) + (if sent[|sent| - 1].Exit? then 1 else 0)
  }

  function Percents(sent: seq<Push>): seq<int> {
    if sent == [] then []
    else Percents(sent[..|sent| - 1]) + (if sent[|sent| - 1].Progress? then [sent[|sent| - 1].percent] else [])
  }

  predicate Complained(es: seq<Event>) {
    exists i :: 0 <= i < |es| && es[i].Stderr?
  }

  /** The last time the archiver wrote anything, from its first complaint on. */
  function LastOutput(es: seq<Event>): int
    requires Complained(es)
  {
    var before, last := es[..|es| - 1], es[|es| - 1];
    if last.Stderr? || (last.Stdout? && Complained(before)) then last.now
    else ComplainedEarlier(es); LastOutput(before)
  }

  lemma ComplainedEarlier(es: seq<Event>)
    requires Complained(es) && !es[|es| - 1].Stderr?
    ensures Complained(es[..|es| - 1])
  {
    var i :| 0 <= i < |es| && es[i].Stderr?;
    assert es[..|es| - 1][i] == es[i];
  }

  lemma ComplainedLater(es: seq<Event>)
    requires es != []
    ensures Complained(es) <==> Complained(es[..|es| - 1]) || es[|es| - 1].Stderr?
  {
    if Complained(es) && !es[|es| - 1].Stderr? { ComplainedEarlier(es); }
    if Complained(es[..|es| - 1]) {
      var i :| 0 <= i < |es| - 1 && es[..|es| - 1][i].Stderr?;
      assert es[i].Stderr?;
    }
  }

  predicate Increasing(xs: seq<int>) {
    forall i, j :: 0 <= i < j < |xs| ==> xs[i] < xs[j]
  }

  lemma SentOneMore(sent: seq<Push>, p: Push)
    ensures Exits(sent + [p]) == Exits(sent) + (if p.Exit? then 1 else 0)
    ensures Percents(sent + [p]) == if p.Progress? then Percents(sent) + [p.percent] else Percents(sent)
  {
    LastOf(sent, p);
    Unit(Percents(sent));
  }

  /** One exit push exactly when ended, progress rising, and the timer armed while complaints await more. */
  predicate WellWatched(s: State, complained: bool, lastOutput: int) {
    Exits(s.sent) == (if s.ended then 1 else 0) &&
    Increasing(Percents(s.sent)) && s.progress >= 0 && (forall p <- Percents(s.sent) :: 0 < p <= s.progress) &&
    (if s.ended || !complained then s.stall == None else s.stall == Some(lastOutput + STALL_MS))
  }

  lemma EndKeepsWatch(s: State, code: Option<int>, complained: bool, lastOutput: int)
    requires WellWatched(s, complained, lastOutput)
    ensures WellWatched(Ended(s, code), complained, lastOutput) && Ended(s, code).ended
  {
    if !s.ended { SentOneMore(s.sent, Ended(s, code).sent[|s.sent|]); }
  }

  lemma RisesFurther(was: seq<int>, top: int, p: int)
    requires Increasing(was) && (forall x <- was :: 0 < x <= top) && 0 <= top < p
    ensures Increasing(was + [p]) && forall x <- was + [p] :: 0 < x <= p
  {
    forall i, j | 0 <= i < j < |was| + 1 ensures (was + [p])[i] < (was + [p])[j] {
      if j == |was| { assert was[i] in was; }
    }
  }

  lemma StdoutKeepsWatch(s: State, e: Event, complained: bool, lastOutput: int)
    requires WellWatched(s, complained, lastOutput) && e.Stdout?
    ensures WellWatched(Step(s, e), complained, if complained then e.now else lastOutput)
  {
    if e.percent.Some? && e.percent.value > s.progress {
      ProgressKeepsWatch(s, e.percent.value, complained, lastOutput);
    }
  }

  lemma ProgressKeepsWatch(s: State, percent: int, complained: bool, lastOutput: int)
    requires WellWatched(s, complained, lastOutput) && percent > s.progress
    ensures WellWatched(s.(progress := percent, sent := s.sent + [Progress(percent)]), complained, lastOutput)
  {
    SentOneMore(s.sent, Progress(percent));
    RisesFurther(Percents(s.sent), s.progress, percent);
  }

  function OutputOr0(es: seq<Event>): int {
    if Complained(es) then LastOutput(es) else 0
  }

  /** Every run sends at most one exit push, and a complaint keeps the stall timer armed until the end. */
  lemma {:induction false} RunIsWellWatched(es: seq<Event>)
    ensures WellWatched(After(es), Complained(es), OutputOr0(es))
    decreases es
  {
    if es != [] {
      var before, e := es[..|es| - 1], es[|es| - 1];
      var s := After(before);
      RunIsWellWatched(before);
      ComplainedLater(es);
      match e {
        case Stdout(_, _) => StdoutKeepsWatch(s, e, Complained(before), OutputOr0(before));
        case Stderr(_, _) =>
        case Timer(_) =>
          EndKeepsWatch(s.(stderr := s.stderr + "\narchiver stalled"), Some(1), Complained(before), OutputOr0(before));
        case Failed(_, text) =>
          EndKeepsWatch(s.(stderr := s.stderr + text), Some(1), Complained(before), OutputOr0(before));
        case Exited(_, code) => EndKeepsWatch(s, code, Complained(before), OutputOr0(before));
      }
    }
  }

  predicate Silent(es: seq<Event>) {
    forall i :: 0 <= i < |es| ==> !es[i].Stdout? && !es[i].Stderr?
  }

  lemma {:induction false} SilenceKeepsOutput(es: seq<Event>, more: seq<Event>)
    requires Complained(es) && Silent(more)
    ensures Complained(es + more) && LastOutput(es + more) == LastOutput(es)
    decreases more
  {
    if more == [] {
      Unit(es);
    } else {
      var init, last := more[..|more| - 1], more[|more| - 1];
      InitLast(more);
      Associative(es, init, [last]);
      SilenceKeepsOutput(es, init);
      LastOf(es + init, last);
      ComplainedLater((es + init) + [last]);
    }
  }

  /**
   * A complaint is never left alone: as long as no output comes, either the run has ended, with the
   * one exit push, or a timer is armed that is due the limit after the last output.
   */
  lemma SilenceIsWatched(es: seq<Event>, more: seq<Event>)
    requires Complained(es) && Silent(more)
    ensures var s := After(es + more);
            if s.ended then Exits(s.sent) == 1 && s.stall == None
            else Exits(s.sent) == 0 && s.stall == Some(LastOutput(es) + STALL_MS)
  {
    SilenceKeepsOutput(es, more);
    RunIsWellWatched(es + more);
  }

  lemma {:induction false} EndedStays(es: seq<Event>, more: seq<Event>)
    requires After(es).ended
    ensures After(es + more).ended
    decreases more
  {
    if more == [] {
      Unit(es);
    } else {
      EndedStays(es, more[..|more| - 1]);
      InitLast(more);
      Associative(es, more[..|more| - 1], [more[|more| - 1]]);
      LastOf(es + more[..|more| - 1], more[|more| - 1]);
    }
  }

  /** That timer ends the run, however late it is handled: silence always leads to the one exit push. */
  lemma SilenceEnds(es: seq<Event>, quiet: seq<Event>, timer: Event)
    requires Complained(es) && Silent(quiet) && timer.Timer?
    ensures After(es + quiet + [timer]).ended && Exits(After(es + quiet + [timer]).sent) == 1
  {
    SilenceIsWatched(es, quiet);
    LastOf(es + quiet, timer);
    RunIsWellWatched(es + quiet + [timer]);
  }

  /** It fires the limit after the last output, and not before. */
  lemma TimerIsDue(es: seq<Event>, quiet: seq<Event>, timer: Event)
    requires Complained(es) && Silent(quiet) && timer.Timer? && Legal(es + quiet + [timer])
    ensures !After(es + quiet).ended && timer.now >= LastOutput(es) + STALL_MS
  {
    SilenceIsWatched(es, quiet);
    LastOf(es + quiet, timer);
  }

  // ----- what the client is told -----

  predicate OnlyOutput(es: seq<Event>) {
    forall i :: 0 <= i < |es| ==> es[i].Stdout? || es[i].Stderr?
  }

  function Complaints(es: seq<Event>): seq<string> {
    if es == [] then []
    else Complaints(es[..|es| - 1]) + (if es[|es| - 1].Stderr? then [es[|es| - 1].text] else [])
  }

  function Joined(texts: seq<string>): string {
    if texts == [] then "" else Joined(texts[..|texts| - 1]) + texts[|texts| - 1]
  }

  /** The complaints kept are the first `m`: all of them, or as many as it took to reach the limit. */
  predicate KeepsFirst(text: string, complaints: seq<string>, m: nat) {
    m <= |complaints| && text == Joined(complaints[..m]) &&
    (m < |complaints| ==> |text| >= STDERR_MAX) && (m > 0 ==> |Joined(complaints[..m - 1])| < STDERR_MAX)
  }

  lemma {:induction false} OutputGoesOn(es: seq<Event>)
    requires OnlyOutput(es)
    ensures !After(es).ended && Exits(After(es).sent) == 0
    decreases es
  {
    if es != [] {
      OutputGoesOn(es[..|es| - 1]);
      var s, e := After(es[..|es| - 1]), es[|es| - 1];
      if e.Stdout? && e.percent.Some? { SentOneMore(s.sent, Progress(e.percent.value)); }
    }
  }

  /** What the archiver complained about is kept from the start, up to the complaint that reaches the limit. */
  lemma {:induction false} ComplaintsAreKept(es: seq<Event>) returns (m: nat)
    requires OnlyOutput(es)
    ensures KeepsFirst(After(es).stderr, Complaints(es), m)
    decreases es
  {
    if es == [] {
      m := 0;
    } else {
      var before, e := es[..|es| - 1], es[|es| - 1];
      m := ComplaintsAreKept(before);
      if e.Stderr? { m := OneMoreComplaint(After(before).stderr, Complaints(before), e.text, m); }
      else { Unit(Complaints(before)); }
    }
  }

  lemma OneMoreComplaint(text: string, complaints: seq<string>, more: string, m: nat) returns (n: nat)
    requires KeepsFirst(text, complaints, m)
    ensures KeepsFirst(if |text| < STDERR_MAX then text + more else text, complaints + [more], n)
  {
    var all := complaints + [more];
    assert all[..m] == complaints[..m];
    if |text| < STDERR_MAX {
      n := m + 1;
      LastOf(complaints, more);
      Whole(all);
      Whole(complaints);
    } else {
      n := m;
      if m > 0 { assert all[..m - 1] == complaints[..m - 1]; }
    }
  }

  predicate Ends(e: Event) {
    e.Timer? || e.Failed? || e.Exited?
  }

  /** What the ending adds to the complaints. */
  function EndNote(e: Event): string {
    match e
    case Timer(_) => "\narchiver stalled"
    case Failed(_, text) => text
    case _ => ""
  }

  /** The end is told with the archiver's own code, or 1, and with the complaints unless all went well. */
  predicate Tells(p: Push, e: Event, complaints: string) {
    p.Exit? && p.code == (if e.Exited? then e.code else Some(1)) &&
    p.error == if p.code == Some(0) || complaints + EndNote(e) == "" then None else Some(Trim(complaints + EndNote(e)))
  }

  lemma EndTells(es: seq<Event>, e: Event)
    requires OnlyOutput(es) && Ends(e)
    ensures var sent := After(es + [e]).sent;
            |sent| == |After(es).sent| + 1 && sent[..|sent| - 1] == After(es).sent &&
            Tells(sent[|sent| - 1], e, After(es).stderr)
  {
    LastOf(es, e);
    OutputGoesOn(es);
    Unit(After(es).stderr);
  }

  lemma StepSends(s: State, e: Event)
    ensures s.sent <= Step(s, e).sent
  {
  }

  lemma {:induction false} SentGrows(es: seq<Event>, more: seq<Event>)
    ensures After(es).sent <= After(es + more).sent
    decreases more
  {
    if more == [] {
      Unit(es);
    } else {
      var init, last := more[..|more| - 1], more[|more| - 1];
      SentGrows(es, init);
      InitLast(more);
      Associative(es, init, [last]);
      LastOf(es + init, last);
      StepSends(After(es + init), last);
    }
  }

  /** Whatever follows, the exit push stays the one told by the first end. */
  lemma FirstEndIsTold(es: seq<Event>, e: Event, rest: seq<Event>)
    requires OnlyOutput(es) && Ends(e)
    ensures var sent, at := After(es + [e] + rest).sent, |After(es).sent|;
            at < |sent| && Tells(sent[at], e, After(es).stderr) && Exits(sent) == 1
  {
    EndTells(es, e);
    SentGrows(es + [e], rest);
    LastOf(es, e);
    OutputGoesOn(es);
    EndedStays(es + [e], rest);
    RunIsWellWatched(es + [e] + rest);
  }

  predicate IsPercent(es: seq<Event>, i: int, p: int) {
    0 <= i < |es| && es[i].Stdout? && es[i].percent == Some(p)
  }

  /** The percentage at `i` is above zero and above all before it. */
  predicate Record(es: seq<Event>, i: int, p: int) {
    IsPercent(es, i, p) && p > 0 &&
    forall j :: 0 <= j < i && es[j].Stdout? && es[j].percent.Some? ==> es[j].percent.value < p
  }

  predicate AtMost(es: seq<Event>, top: int) {
    forall i :: 0 <= i < |es| && es[i].Stdout? && es[i].percent.Some? ==> es[i].percent.value <= top
  }

  ghost predicate Told(es: seq<Event>, p: int) {
    exists i :: Record(es, i, p)
  }

  lemma {:induction false} ProgressIsHighest(es: seq<Event>)
    ensures AtMost(es, After(es).progress)
    ensures After(es).progress == 0 || exists i :: IsPercent(es, i, After(es).progress)
    decreases es
  {
    if es != [] {
      var before, e := es[..|es| - 1], es[|es| - 1];
      ProgressIsHighest(before);
      assert forall i :: 0 <= i < |before| ==> es[i] == before[i];
      if After(es).progress == After(before).progress {
        if After(before).progress != 0 {
          var i :| IsPercent(before, i, After(before).progress);
          assert IsPercent(es, i, After(es).progress);
        }
      } else {
        assert IsPercent(es, |before|, After(es).progress);
      }
    }
  }

  lemma RecordStays(before: seq<Event>, e: Event, i: int, p: int)
    requires i < |before|
    ensures Record(before + [e], i, p) <==> Record(before, i, p)
  {
    var es := before + [e];
    assert forall j :: 0 <= j < |before| ==> es[j] == before[j];
  }

  lemma PercentStep(s: State, e: Event, p: int)
    ensures p in Percents(Step(s, e).sent) <==>
              p in Percents(s.sent) || (e.Stdout? && e.percent == Some(p) && p > s.progress)
  {
    if e.Stdout? {
      if e.percent.Some? { SentOneMore(s.sent, Progress(e.percent.value)); }
    } else if Step(s, e).sent != s.sent {
      SentOneMore(s.sent, Step(s, e).sent[|s.sent|]);
    }
  }

  /** Exactly the percentages that rise above all before them are pushed. */
  lemma {:induction false} RecordsAreTold(es: seq<Event>, p: int)
    ensures p in Percents(After(es).sent) <==> Told(es, p)
    decreases es
  {
    if es != [] {
      var before, e := es[..|es| - 1], es[|es| - 1];
      InitLast(es);
      RecordsAreTold(before, p);
      RunIsWellWatched(before);
      ProgressIsHighest(before);
      LastRecord(before, e, p);
      PercentStep(After(before), e, p);
      LaterTold(before, e, p);
    }
  }

  lemma LastRecord(before: seq<Event>, e: Event, p: int)
    requires AtMost(before, After(before).progress)
    requires After(before).progress == 0 || exists i :: IsPercent(before, i, After(before).progress)
    requires After(before).progress >= 0
    ensures Record(before + [e], |before|, p) <==> e.Stdout? && e.percent == Some(p) && p > After(before).progress
  {
    var es, top := before + [e], After(before).progress;
    assert forall j :: 0 <= j < |before| ==> es[j] == before[j];
    if top != 0 && Record(es, |before|, p) {
      var i :| IsPercent(before, i, top);
      assert es[i].percent == Some(top);
    }
  }

  lemma LaterTold(before: seq<Event>, e: Event, p: int)
    ensures Told(before + [e], p) <==> Told(before, p) || Record(before + [e], |before|, p)
  {
    if Told(before, p) {
      var i :| Record(before, i, p);
      RecordStays(before, e, i, p);
    }
    if Told(before + [e], p) && !Record(before + [e], |before|, p) {
      var i :| Record(before + [e], i, p);
      RecordStays(before, e, i, p);
    }
  }
}
