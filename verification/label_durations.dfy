/** `LabelDurationExtractor.extract`: per issue, a last-write-wins scan of
    its "labeled" and "unlabeled" events that remembers when the "dev" and
    "review" labels were last added and last removed, followed by the
    hours spent in each stage. */
module LabelDurations {
  import opened Wrappers
  import opened Text
  import opened Timeline

  /** One timeline event: its kind, the name of its label (absent when the
      event has no label) and its creation time in seconds. */
  datatype LabelEvent = LabelEvent(event: string, labelName: Option<string>, createdAt: real)

  /** The label name as compared: lower-cased, the empty name when absent. */
  function LabelName(ev: LabelEvent): string
  {
    Lower(if ev.labelName.Some? then ev.labelName.value else "")
  }

  predicate Adds(ev: LabelEvent, name: string)
  {
    LabelName(ev) == name && ev.event == "labeled"
  }

  /** Every event that is not "labeled" counts as a removal. */
  predicate Removes(ev: LabelEvent, name: string)
  {
    LabelName(ev) == name && ev.event != "labeled"
  }

  predicate AddsDev(ev: LabelEvent) { Adds(ev, "dev") }
  predicate RemovesDev(ev: LabelEvent) { Removes(ev, "dev") }
  predicate AddsReview(ev: LabelEvent) { Adds(ev, "review") }
  predicate RemovesReview(ev: LabelEvent) { Removes(ev, "review") }

  function Time(ev: LabelEvent): real
  {
    ev.createdAt
  }

  /** The stamps of an issue by the last-occurrence reading: the dev start
      is the time of the last event adding "dev", and so on. */
  function Expected(events: seq<LabelEvent>): Marks
  {
    Marks(LastTime(events, AddsDev, Time),
          LastTime(events, RemovesDev, Time),
          LastTime(events, AddsReview, Time),
          LastTime(events, RemovesReview, Time))
  }

  /** The inner loop: walk the events once, overwriting a stamp whenever
      an event for it goes by. */
  method Scan(events: seq<LabelEvent>) returns (m: Marks)
    ensures m == Expected(events)
  {
    var di, dout, ri, ro: Option<real> := None, None, None, None;
    var i := 0;
    while i < |events|
      invariant 0 <= i <= |events|
      invariant Marks(di, dout, ri, ro) == Expected(events[..i])
    {
      var ev := events[i];
      var lab := LabelName(ev);
      var ts := ev.createdAt;
      if lab == "dev" {
        if ev.event == "labeled" {
          di := Some(ts);
        } else {
          dout := Some(ts);
        }
      }
      if lab == "review" {
        if ev.event == "labeled" {
          ri := Some(ts);
        } else {
          ro := Some(ts);
        }
      }
      assert events[..i + 1] == events[..i] + [ev];
      LastTimeSnoc(events[..i], ev, AddsDev, Time);
      LastTimeSnoc(events[..i], ev, RemovesDev, Time);
      LastTimeSnoc(events[..i], ev, AddsReview, Time);
      LastTimeSnoc(events[..i], ev, RemovesReview, Time);
      i := i + 1;
    }
    assert events[..i] == events;
    m := Marks(di, dout, ri, ro);
  }

  /** `extract`: the dev and review hours of every issue that has both
      stamps of the stage, in issue order. */
  method Extract(issues: seq<int>, timeline: int -> seq<LabelEvent>) returns (d: Durations)
    ensures d == Collect(MarksOf(issues, timeline, Expected))
    ensures |d.dev| <= |issues| && |d.review| <= |issues|
  {
    d := Durations([], []);
    ghost var ms: seq<Marks> := [];
    var k := 0;
    while k < |issues|
      invariant 0 <= k <= |issues|
      invariant ms == MarksOf(issues[..k], timeline, Expected)
      invariant d == Collect(ms)
    {
      var m := Scan(timeline(issues[k]));
      var d' := AddIssue(d, m);
      CollectStep(issues, k, timeline, Expected, ms, d, m, d');
      d := d';
      ms := ms + [m];
      k := k + 1;
    }
    assert issues[..k] == issues;
  }

  /** The last event adding "dev" sets the dev start and the last event
      removing it sets the dev end; a stamp is absent exactly when no such
      event occurred. The review stamps work the same way. */
  lemma ExpectedIsLast(events: seq<LabelEvent>)
    ensures Expected(events).devIn.None? <==> forall i :: 0 <= i < |events| ==> !AddsDev(events[i])
    ensures forall i :: IsLast(events, AddsDev, i) ==> Expected(events).devIn == Some(events[i].createdAt)
    ensures Expected(events).devOut.None? <==> forall i :: 0 <= i < |events| ==> !RemovesDev(events[i])
    ensures forall i :: IsLast(events, RemovesDev, i) ==> Expected(events).devOut == Some(events[i].createdAt)
    ensures Expected(events).reviewIn.None? <==> forall i :: 0 <= i < |events| ==> !AddsReview(events[i])
    ensures forall i :: IsLast(events, AddsReview, i) ==> Expected(events).reviewIn == Some(events[i].createdAt)
    ensures Expected(events).reviewOut.None? <==> forall i :: 0 <= i < |events| ==> !RemovesReview(events[i])
    ensures forall i :: IsLast(events, RemovesReview, i) ==> Expected(events).reviewOut == Some(events[i].createdAt)
  {
    LastTimeIsLast(events, AddsDev, Time);
    LastTimeIsLast(events, RemovesDev, Time);
    LastTimeIsLast(events, AddsReview, Time);
    LastTimeIsLast(events, RemovesReview, Time);
  }

  /** An event about "dev" never changes the review stamps. */
  lemma DevEventKeepsReview(a: seq<LabelEvent>, e: LabelEvent, b: seq<LabelEvent>)
    requires LabelName(e) == "dev"
    ensures Expected(a + [e] + b).reviewIn == Expected(a + b).reviewIn
    ensures Expected(a + [e] + b).reviewOut == Expected(a + b).reviewOut
  {
    LastTimeSkip(a, e, b, AddsReview, Time);
    LastTimeSkip(a, e, b, RemovesReview, Time);
  }

  /** An event about "review" never changes the dev stamps. */
  lemma ReviewEventKeepsDev(a: seq<LabelEvent>, e: LabelEvent, b: seq<LabelEvent>)
    requires LabelName(e) == "review"
    ensures Expected(a + [e] + b).devIn == Expected(a + b).devIn
    ensures Expected(a + [e] + b).devOut == Expected(a + b).devOut
  {
    LastTimeSkip(a, e, b, AddsDev, Time);
    LastTimeSkip(a, e, b, RemovesDev, Time);
  }

  /** A label is recognised in any letter case: a closing event whose
      name spells "dev" in any mix of cases sets the dev end. */
  lemma AnyCaseSetsDevEnd(events: seq<LabelEvent>, e: LabelEvent, name: string)
    requires e.labelName == Some(name) && e.event != "labeled"
    requires |name| == 3
    requires name[0] in {'d', 'D'} && name[1] in {'e', 'E'} && name[2] in {'v', 'V'}
    ensures Expected(events + [e]).devOut == Some(e.createdAt)
    ensures Expected(events + [e]).devIn == Expected(events).devIn
  {
    LowerMatches(name, "dev");
    LastTimeSnoc(events, e, RemovesDev, Time);
    LastTimeSnoc(events, e, AddsDev, Time);
  }

  /** An issue labeled "Dev" at 0 s and unlabeled "dev" two hours later
      contributes 2.0 dev hours and no review hours. */
  lemma TwoHourExample()
    ensures var events := [LabelEvent("labeled", Some("Dev"), 0.0),
                           LabelEvent("unlabeled", Some("dev"), 7200.0)];
      Collect([Expected(events)]) == Durations([2.0], [])
  {
    var e0 := LabelEvent("labeled", Some("Dev"), 0.0);
    var e1 := LabelEvent("unlabeled", Some("dev"), 7200.0);
    LowerMatches("Dev", "dev");
    LowerMatches("dev", "dev");
    LowerMatches("Dev", "review");
    LowerMatches("dev", "review");
    LastTimeSnoc([e0], e1, AddsDev, Time);
    LastTimeSnoc([e0], e1, RemovesDev, Time);
    LastTimeSnoc([e0], e1, AddsReview, Time);
    LastTimeSnoc([e0], e1, RemovesReview, Time);
    LastTimeSnoc([], e0, AddsDev, Time);
    LastTimeSnoc([], e0, RemovesDev, Time);
    LastTimeSnoc([], e0, AddsReview, Time);
    LastTimeSnoc([], e0, RemovesReview, Time);
    assert [e0, e1] == [e0] + [e1];
    assert [e0] == [] + [e0];
    CollectOne(Expected([e0, e1]));
  }
}
