/** `DurationExtractor.extract`: per issue, a last-write-wins scan of its
    "moved_columns_in_project" events. Entering the "dev" column stamps the
    dev start and leaving it stamps the dev end; "review" likewise. Column
    names are compared exactly, letter case included. */
module ColumnDurations {
  import opened Wrappers
  import opened Timeline

  /** The project card of a move: the column it left and the column it
      entered, either of which may be missing. */
  datatype Card = Card(previousColumn: Option<string>, column: Option<string>)

  /** One move event: its card (absent when the event carries none) and
      its creation time in seconds. */
  datatype MoveEvent = MoveEvent(card: Option<Card>, createdAt: real)

  predicate Enters(ev: MoveEvent, name: string)
  {
    ev.card.Some? && ev.card.value.column == Some(name)
  }

  predicate Leaves(ev: MoveEvent, name: string)
  {
    ev.card.Some? && ev.card.value.previousColumn == Some(name)
  }

  predicate EntersDev(ev: MoveEvent) { Enters(ev, "dev") }
  predicate LeavesDev(ev: MoveEvent) { Leaves(ev, "dev") }
  predicate EntersReview(ev: MoveEvent) { Enters(ev, "review") }
  predicate LeavesReview(ev: MoveEvent) { Leaves(ev, "review") }

  function Time(ev: MoveEvent): real
  {
    ev.createdAt
  }

  /** The stamps of an issue by the last-occurrence reading. */
  function Expected(events: seq<MoveEvent>): Marks
  {
    Marks(LastTime(events, EntersDev, Time),
          LastTime(events, LeavesDev, Time),
          LastTime(events, EntersReview, Time),
          LastTime(events, LeavesReview, Time))
  }

  /** The inner loop: four independent tests per event, each overwriting
      its stamp. A missing card reads as a card with no columns. */
  method Scan(events: seq<MoveEvent>) returns (m: Marks)
    ensures m == Expected(events)
  {
    var di, dout, ri, ro: Option<real> := None, None, None, None;
    var i := 0;
    while i < |events|
      invariant 0 <= i <= |events|
      invariant Marks(di, dout, ri, ro) == Expected(events[..i])
    {
      var ev := events[i];
      var info := if ev.card.Some? then ev.card.value else Card(None, None);
      var colFrom := info.previousColumn;
      var colTo := info.column;
      var ts := ev.createdAt;
      if colTo == Some("dev") {
        di := Some(ts);
      }
      if colFrom == Some("dev") {
        dout := Some(ts);
      }
      if colTo == Some("review") {
        ri := Some(ts);
      }
      if colFrom == Some("review") {
        ro := Some(ts);
      }
      assert events[..i + 1] == events[..i] + [ev];
      LastTimeSnoc(events[..i], ev, EntersDev, Time);
      LastTimeSnoc(events[..i], ev, LeavesDev, Time);
      LastTimeSnoc(events[..i], ev, EntersReview, Time);
      LastTimeSnoc(events[..i], ev, LeavesReview, Time);
      i := i + 1;
    }
    assert events[..i] == events;
    m := Marks(di, dout, ri, ro);
  }

  /** `extract`: the dev and review hours of every issue that has both
      stamps of the stage, in issue order. */
  method Extract(issues: seq<int>, timeline: int -> seq<MoveEvent>) returns (d: Durations)
    ensures d == Collect(MarksOf(issues, timeline, Expected))
    ensures |d.dev| <= |issues| && |d.review| <= |issues|
  {
    d := Durations([], []);
    ghost var ms: seq<Marks> := [];
    var k := 0;
    while k < |issues|
      invariant 0 <= k <= |issues|
      invariant ms == MarksOf(issues[..k], timeline, Expected)
      invariant d == Collect(ms)
    {
      var m := Scan(timeline(issues[k]));
      var d' := AddIssue(d, m);
      CollectStep(issues, k, timeline, Expected, ms, d, m, d');
      d := d';
      ms := ms + [m];
      k := k + 1;
    }
    assert issues[..k] == issues;
  }

  /** The last move into "dev" sets the dev start and the last move out of
      it sets the dev end; a stamp is absent exactly when no such move
      occurred. The review stamps work the same way. */
  lemma ExpectedIsLast(events: seq<MoveEvent>)
    ensures Expected(events).devIn.None? <==> forall i :: 0 <= i < |events| ==> !EntersDev(events[i])
    ensures forall i :: IsLast(events, EntersDev, i) ==> Expected(events).devIn == Some(events[i].createdAt)
    ensures Expected(events).devOut.None? <==> forall i :: 0 <= i < |events| ==> !LeavesDev(events[i])
    ensures forall i :: IsLast(events, LeavesDev, i) ==> Expected(events).devOut == Some(events[i].createdAt)
    ensures Expected(events).reviewIn.None? <==> forall i :: 0 <= i < |events| ==> !EntersReview(events[i])
    ensures forall i :: IsLast(events, EntersReview, i) ==> Expected(events).reviewIn == Some(events[i].createdAt)
    ensures Expected(events).reviewOut.None? <==> forall i :: 0 <= i < |events| ==> !LeavesReview(events[i])
    ensures forall i :: IsLast(events, LeavesReview, i) ==> Expected(events).reviewOut == Some(events[i].createdAt)
  {
    LastTimeIsLast(events, EntersDev, Time);
    LastTimeIsLast(events, LeavesDev, Time);
    LastTimeIsLast(events, EntersReview, Time);
    LastTimeIsLast(events, LeavesReview, Time);
  }

  /** A single move from "dev" to "review" ends the dev stage and starts
      the review stage at the same instant, and touches nothing else. */
  lemma DevToReview(events: seq<MoveEvent>, t: real)
    ensures var e := MoveEvent(Some(Card(Some("dev"), Some("review"))), t);
      && Expected(events + [e]).devOut == Some(t)
      && Expected(events + [e]).reviewIn == Some(t)
      && Expected(events + [e]).devIn == Expected(events).devIn
      && Expected(events + [e]).reviewOut == Expected(events).reviewOut
  {
    var e := MoveEvent(Some(Card(Some("dev"), Some("review"))), t);
    LastTimeSnoc(events, e, EntersDev, Time);
    LastTimeSnoc(events, e, LeavesDev, Time);
    LastTimeSnoc(events, e, EntersReview, Time);
    LastTimeSnoc(events, e, LeavesReview, Time);
  }

  /** An event without a project card changes no stamp, wherever it is. */
  lemma CardlessEventIgnored(a: seq<MoveEvent>, t: real, b: seq<MoveEvent>)
    ensures Expected(a + [MoveEvent(None, t)] + b) == Expected(a + b)
  {
    var e := MoveEvent(None, t);
    LastTimeSkip(a, e, b, EntersDev, Time);
    LastTimeSkip(a, e, b, LeavesDev, Time);
    LastTimeSkip(a, e, b, EntersReview, Time);
    LastTimeSkip(a, e, b, LeavesReview, Time);
  }

  /** Column names are matched exactly: a move into "Dev" is not a move
      into "dev". */
  lemma CaseSensitive(events: seq<MoveEvent>, t: real)
    ensures Expected(events + [MoveEvent(Some(Card(None, Some("Dev"))), t)]).devIn
      == Expected(events).devIn
  {
    var e := MoveEvent(Some(Card(None, Some("Dev"))), t);
    assert "Dev"[0] != "dev"[0];
    LastTimeSnoc(events, e, EntersDev, Time);
  }
}
