/**
  The proposal page's state machine: a count of reject clicks and a
  submitted flag. A reject click shows the next playful line, hides the
  reject button from the third click on and records "Reject"; an accept
  click records "Accept" and submits. Once submitted, both buttons do nothing.
 */
module ProposalPage {
  import opened Store
  import Recorder

  datatype Proposal = Proposal(rejectClicks: nat, isSubmitted: bool)

  /** The state when the page loads. */
  const Initial := Proposal(0, false)

  /** The playful lines, in order; the last is also the fallback line. */
  datatype Line = AreYouSure | ThinkAgain | HeartWaiting | OnlyOneOption

  const PlayfulLines: seq<Line> := [AreYouSure, ThinkAgain, HeartWaiting, OnlyOneOption]

  /** The reject button is hidden from this many clicks on. */
  const HideAfter := 3

  /** `setPlayful(index)`: the line at `index`, or the fallback line when
      `index` is out of range. */
  function ShownLine(index: int): Line
  {
    if 0 <= index < |PlayfulLines| then PlayfulLines[index] else OnlyOneOption
  }

  /** The index the reject handler asks for after its `clicks`-th click. */
  function PlayfulIndex(clicks: int): int
  {
    if clicks <= 3 then clicks - 1 else 3
  }

  /** From the first click on, the index is in range, so the fallback is
      never needed: clicks 1, 2, 3 show lines 0, 1, 2 and every later click
      shows the last line. */
  lemma PlayfulIndexInRange(clicks: int)
    requires clicks >= 1
    ensures 0 <= PlayfulIndex(clicks) < |PlayfulLines|
    ensures ShownLine(PlayfulIndex(clicks)) == PlayfulLines[PlayfulIndex(clicks)]
    ensures ShownLine(PlayfulIndex(clicks)) == OnlyOneOption <==> clicks >= 4
  {
  }

  /** The stores a click writes to. */
  datatype World = World(local: LocalSlot, db: Db)

  /** The status a handled click leaves: which choice, and whether it reached
      the cloud. Reject statuses are styled as errors, accept ones as success. */
  datatype PageStatus = PageStatus(choice: string, cloud: bool)

  datatype Effect =
    | Ignored
    | RejectShown(line: Line, hideReject: bool, status: PageStatus)
    | AcceptShown(status: PageStatus)

  /** One click: the next page state, the stores after it, what the page shows. */
  datatype Step = Step(next: Proposal, world: World, effect: Effect)

  /** Record `choice` through `saveAnswer`, returning the stores and the result. */
  function Record(choice: string, w: World, env: Recorder.SaveEnv): (World, bool)
  {
    var saved := Recorder.SaveAnswer(choice, w.local, w.db, env);
    (World(saved.local, saved.db), saved.cloud)
  }

  /** The reject button's click handler. */
  function OnReject(s: Proposal, w: World, env: Recorder.SaveEnv): (st: Step)
    ensures s.isSubmitted ==> st == Step(s, w, Ignored)
    ensures !s.isSubmitted ==>
              st.next == Proposal(s.rejectClicks + 1, false) && st.effect.RejectShown?
    // clicks 1..3 show lines 0..2; later clicks show the last line
    ensures !s.isSubmitted ==>
              st.effect.line == PlayfulLines[if s.rejectClicks < 3 then s.rejectClicks else 3]
    ensures !s.isSubmitted ==> (st.effect.hideReject <==> st.next.rejectClicks >= HideAfter)
    ensures !s.isSubmitted ==>
              st.world == Record("Reject", w, env).0 &&
              st.effect.status == PageStatus("Reject", Record("Reject", w, env).1)
  {
    if s.isSubmitted then Step(s, w, Ignored)
    else
      var clicks := s.rejectClicks + 1;
      var (w', cloud) := Record("Reject", w, env);
      Step(Proposal(clicks, false), w',
           RejectShown(ShownLine(PlayfulIndex(clicks)), clicks >= HideAfter, PageStatus("Reject", cloud)))
  }

  /** The accept button's click handler: record, then submit. */
  function OnAccept(s: Proposal, w: World, env: Recorder.SaveEnv): (st: Step)
    ensures s.isSubmitted ==> st == Step(s, w, Ignored)
    ensures !s.isSubmitted ==> st.next == Proposal(s.rejectClicks, true)
    ensures !s.isSubmitted ==>
              st.world == Record("Accept", w, env).0 &&
              st.effect == AcceptShown(PageStatus("Accept", Record("Accept", w, env).1))
  {
    if s.isSubmitted then Step(s, w, Ignored)
    else
      var (w', cloud) := Record("Accept", w, env);
      Step(Proposal(s.rejectClicks, true), w', AcceptShown(PageStatus("Accept", cloud)))
  }

  datatype Button = RejectButton | AcceptButton

  /** A click, together with what the outside world does during its save. */
  datatype Click = Click(button: Button, env: Recorder.SaveEnv)

  function Handle(s: Proposal, w: World, c: Click): Step
  {
    match c.button
    case RejectButton => OnReject(s, w, c.env)
    case AcceptButton => OnAccept(s, w, c.env)
  }

  /** Handle `clicks` one after another, each to completion. */
  function Run(s: Proposal, w: World, clicks: seq<Click>): (Proposal, World)
    decreases |clicks|
  {
    if clicks == [] then (s, w)
    else
      var st := Handle(s, w, clicks[0]);
      Run(st.next, st.world, clicks[1..])
  }

  predicate HasAccept(clicks: seq<Click>)
  {
    exists i :: 0 <= i < |clicks| && clicks[i].button.AcceptButton?
  }

  /** The reject clicks that come before the first accept click. */
  function RejectsBeforeAccept(clicks: seq<Click>): nat
    decreases |clicks|
  {
    if clicks == [] then 0
    else if clicks[0].button.AcceptButton? then 0
    else 1 + RejectsBeforeAccept(clicks[1..])
  }

  /** Once submitted, no click changes the page state or either store. */
  lemma {:induction false} SubmittedIsFinal(s: Proposal, w: World, clicks: seq<Click>)
    requires s.isSubmitted
    ensures Run(s, w, clicks) == (s, w)
    decreases |clicks|
  {
    if clicks != [] {
      SubmittedIsFinal(s, w, clicks[1..]);
    }
  }

  /** A leading reject click does not change whether an accept follows. */
  lemma HasAcceptTail(clicks: seq<Click>)
    requires clicks != [] && clicks[0].button.RejectButton?
    ensures HasAccept(clicks) <==> HasAccept(clicks[1..])
  {
  }

  /** From a page that is not yet submitted: it ends submitted exactly when
      some click was an accept, and its reject count has grown by exactly the
      reject clicks made before that accept. */
  lemma {:induction false} RunCountsRejectsUntilAccept(s: Proposal, w: World, clicks: seq<Click>)
    requires !s.isSubmitted
    ensures Run(s, w, clicks).0.isSubmitted <==> HasAccept(clicks)
    ensures Run(s, w, clicks).0.rejectClicks == s.rejectClicks + RejectsBeforeAccept(clicks)
    decreases |clicks|
  {
    if clicks != [] {
      var st := Handle(s, w, clicks[0]);
      if clicks[0].button.AcceptButton? {
        assert HasAccept(clicks) by { assert clicks[0].button.AcceptButton?; }
        SubmittedIsFinal(st.next, st.world, clicks[1..]);
      } else {
        HasAcceptTail(clicks);
        RunCountsRejectsUntilAccept(st.next, st.world, clicks[1..]);
      }
    }
  }

  /** From the page as it loads, the state after any clicks is fixed by the
      clicks alone: the reject clicks made before the first accept, and
      whether an accept was made at all. */
  lemma RunFromInitial(w: World, clicks: seq<Click>)
    ensures Run(Initial, w, clicks).0 == Proposal(RejectsBeforeAccept(clicks), HasAccept(clicks))
  {
    RunCountsRejectsUntilAccept(Initial, w, clicks);
  }

  /** No local write throws during any click. */
  ghost predicate LocalWritesSucceed(clicks: seq<Click>)
  {
    forall i :: 0 <= i < |clicks| ==> !clicks[i].env.writeThrows
  }

  /** The entries the clicks append while the page is not submitted: a
      "Reject" for each reject click before the first accept, then an
      "Accept" for that accept, each stamped with its own click's time. */
  function HandledEntries(clicks: seq<Click>): seq<Entry>
    decreases |clicks|
  {
    if clicks == [] then []
    else if clicks[0].button.AcceptButton? then [Entry(Str("Accept"), clicks[0].env.now)]
    else [Entry(Str("Reject"), clicks[0].env.now)] + HandledEntries(clicks[1..])
  }

  /** From a page that is not yet submitted, with readable local storage
      whose writes succeed, the local log ends as the prior parsed log
      followed by one entry per handled click, in click order; when no click
      was handled the slot is untouched. The log grows by the reject clicks
      before the first accept, plus one for that accept. */
  lemma {:induction false} RunGrowsLocalLog(s: Proposal, w: World, clicks: seq<Click>)
    requires !s.isSubmitted
    requires w.local.Stored? && LocalWritesSucceed(clicks)
    ensures clicks == [] ==> Run(s, w, clicks).1.local == w.local
    ensures clicks != [] ==>
              Run(s, w, clicks).1.local == Stored(Arr(ParseLog(w.local.raw) + HandledEntries(clicks)))
    ensures |HandledEntries(clicks)| == RejectsBeforeAccept(clicks) + (if HasAccept(clicks) then 1 else 0)
    decreases |clicks|
  {
    if clicks != [] {
      var st := Handle(s, w, clicks[0]);
      var entry := Entry(Str(if clicks[0].button.AcceptButton? then "Accept" else "Reject"), clicks[0].env.now);
      assert !clicks[0].env.writeThrows;
      Recorder.SaveAppendsOneLocalEntry(
        if clicks[0].button.AcceptButton? then "Accept" else "Reject", w.local, w.db, clicks[0].env);
      assert st.world.local == Stored(Arr(ParseLog(w.local.raw) + [entry]));
      if clicks[0].button.AcceptButton? {
        assert HasAccept(clicks) by { assert clicks[0].button.AcceptButton?; }
        SubmittedIsFinal(st.next, st.world, clicks[1..]);
      } else {
        HasAcceptTail(clicks);
        assert LocalWritesSucceed(clicks[1..]) by {
          forall i | 0 <= i < |clicks[1..]| ensures !clicks[1..][i].env.writeThrows {
            assert clicks[1..][i] == clicks[i + 1];
          }
        }
        RunGrowsLocalLog(st.next, st.world, clicks[1..]);
        if clicks[1..] != [] {
          assert ParseLog(w.local.raw) + HandledEntries(clicks)
              == (ParseLog(w.local.raw) + [entry]) + HandledEntries(clicks[1..]);
        }
      }
    }
  }
}
