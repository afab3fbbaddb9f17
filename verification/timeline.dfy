/** What the two duration extractors share: the last-write-wins reading of
    an issue's event stream, the four timestamps it keeps per issue, and
    the hours between a start and an end stamp. Timestamps are seconds on
    a common clock. */
module Timeline {
  import opened Wrappers

  /** The time of the last event of `s` that satisfies `p`, found by
      searching from the end. */
  function LastTime<E>(s: seq<E>, p: E -> bool, time: E -> real): Option<real>
  {
    if |s| == 0 then None
    else if p(s[|s| - 1]) then Some(time(s[|s| - 1]))
    else LastTime(s[..|s| - 1], p, time)
  }

  /** Position `i` holds the last event of `s` that satisfies `p`. */
  predicate IsLast<E>(s: seq<E>, p: E -> bool, i: int)
  {
    && 0 <= i < |s|
    && p(s[i])
    && forall j :: i < j < |s| ==> !p(s[j])
  }

  /** `LastTime` is absent exactly when no event qualifies, and otherwise
      it is the time of the last qualifying event. */
  lemma {:induction false} LastTimeIsLast<E>(s: seq<E>, p: E -> bool, time: E -> real)
    ensures LastTime(s, p, time).None? <==> forall i :: 0 <= i < |s| ==> !p(s[i])
    ensures forall i :: IsLast(s, p, i) ==> LastTime(s, p, time) == Some(time(s[i]))
  {
    if |s| > 0 {
      var t := s[..|s| - 1];
      LastTimeIsLast(t, p, time);
      forall i | IsLast(s, p, i)
        ensures LastTime(s, p, time) == Some(time(s[i]))
      {
        if i < |s| - 1 {
          assert IsLast(t, p, i);
        }
      }
      if !p(s[|s| - 1]) && LastTime(t, p, time).Some? {
        var i :| 0 <= i < |t| && p(t[i]);
        assert p(s[i]);
      }
    }
  }

  /** One more event either overwrites the stamp or leaves it as it was. */
  lemma LastTimeSnoc<E>(s: seq<E>, e: E, p: E -> bool, time: E -> real)
    ensures LastTime(s + [e], p, time) == if p(e) then Some(time(e)) else LastTime(s, p, time)
  {
    assert (s + [e])[..|s|] == s;
  }

  /** An event that does not qualify can be dropped from anywhere in the
      stream without changing the stamp. */
  lemma {:induction false} LastTimeSkip<E>(a: seq<E>, e: E, b: seq<E>, p: E -> bool, time: E -> real)
    requires !p(e)
    ensures LastTime(a + [e] + b, p, time) == LastTime(a + b, p, time)
  {
    if |b| == 0 {
      assert a + [e] + b == a + [e];
      assert a + b == a;
      LastTimeSnoc(a, e, p, time);
    } else {
      var c := b[..|b| - 1];
      var x := b[|b| - 1];
      assert a + [e] + b == (a + [e] + c) + [x];
      assert a + b == (a + c) + [x];
      LastTimeSnoc(a + [e] + c, x, p, time);
      LastTimeSnoc(a + c, x, p, time);
      LastTimeSkip(a, e, c, p, time);
    }
  }

  /** The four stamps kept per issue: dev start and end, review start and end. */
  datatype Marks = Marks(
    devIn: Option<real>,
    devOut: Option<real>,
    reviewIn: Option<real>,
    reviewOut: Option<real>)

  /** The stage length in hours, present only when both stamps are. The
      sign is not checked: an end before the start gives a negative length. */
  function Hours(start: Option<real>, end: Option<real>): (r: Option<real>)
    ensures r.Some? <==> start.Some? && end.Some?
    ensures r.Some? ==> r.value * 3600.0 == end.value - start.value
  {
    if start.Some? && end.Some? then Some((end.value - start.value) / 3600.0) else None
  }

  /** The stamps of each issue, in issue order, as read from its events by
      `expected`. */
  function MarksOf<E>(issues: seq<int>, timeline: int -> seq<E>, expected: seq<E> -> Marks)
    : (ms: seq<Marks>)
    ensures |ms| == |issues|
  {
    if |issues| == 0 then []
    else MarksOf(issues[..|issues| - 1], timeline, expected) + [expected(timeline(issues[|issues| - 1]))]
  }

  lemma MarksOfSnoc<E>(issues: seq<int>, n: int, timeline: int -> seq<E>, expected: seq<E> -> Marks)
    ensures MarksOf(issues + [n], timeline, expected)
      == MarksOf(issues, timeline, expected) + [expected(timeline(n))]
  {
    assert (issues + [n])[..|issues|] == issues;
  }

  /** The two output arrays of an extractor. */
  datatype Durations = Durations(dev: seq<real>, review: seq<real>)

  function Present(o: Option<real>): (r: seq<real>)
    ensures |r| <= 1
  {
    if o.Some? then [o.value] else []
  }

  /** The outputs for issues with the given stamps, in issue order: each
      issue adds its dev hours and its review hours when they exist. */
  function Collect(ms: seq<Marks>): (d: Durations)
    ensures |d.dev| <= |ms| && |d.review| <= |ms|
  {
    if |ms| == 0 then Durations([], [])
    else
      var d := Collect(ms[..|ms| - 1]);
      var m := ms[|ms| - 1];
      Durations(d.dev + Present(Hours(m.devIn, m.devOut)),
                d.review + Present(Hours(m.reviewIn, m.reviewOut)))
  }

  /** The tail of an extractor's per-issue loop: a stage's hours are
      appended when both of its stamps were seen. */
  method AddIssue(d: Durations, m: Marks) returns (r: Durations)
    ensures r.dev == d.dev + Present(Hours(m.devIn, m.devOut))
    ensures r.review == d.review + Present(Hours(m.reviewIn, m.reviewOut))
  {
    var dev := d.dev;
    var review := d.review;
    if m.devIn.Some? && m.devOut.Some? {
      dev := dev + [(m.devOut.value - m.devIn.value) / 3600.0];
    }
    if m.reviewIn.Some? && m.reviewOut.Some? {
      review := review + [(m.reviewOut.value - m.reviewIn.value) / 3600.0];
    }
    r := Durations(dev, review);
  }

  /** One more issue appends at most one value per stage. */
  lemma CollectSnoc(ms: seq<Marks>, m: Marks)
    ensures Collect(ms + [m]).dev == Collect(ms).dev + Present(Hours(m.devIn, m.devOut))
    ensures Collect(ms + [m]).review == Collect(ms).review + Present(Hours(m.reviewIn, m.reviewOut))
  {
    assert (ms + [m])[..|ms|] == ms;
  }

  /** One round of an extractor's issue loop keeps the outputs equal to
      the per-issue reading of the issues seen so far. */
  lemma CollectStep<E>(issues: seq<int>, k: nat, timeline: int -> seq<E>, expected: seq<E> -> Marks,
                       ms: seq<Marks>, d: Durations, m: Marks, d': Durations)
    requires k < |issues| && ms == MarksOf(issues[..k], timeline, expected) && d == Collect(ms)
    requires m == expected(timeline(issues[k]))
    requires d'.dev == d.dev + Present(Hours(m.devIn, m.devOut))
    requires d'.review == d.review + Present(Hours(m.reviewIn, m.reviewOut))
    ensures ms + [m] == MarksOf(issues[..k + 1], timeline, expected)
    ensures d' == Collect(ms + [m])
  {
    MarksOfSnoc(issues[..k], issues[k], timeline, expected);
    assert issues[..k + 1] == issues[..k] + [issues[k]];
    CollectSnoc(ms, m);
  }

  /** Output order follows issue order across any split of the issue list. */
  lemma {:induction false} CollectAppend(a: seq<Marks>, b: seq<Marks>)
    ensures Collect(a + b).dev == Collect(a).dev + Collect(b).dev
    ensures Collect(a + b).review == Collect(a).review + Collect(b).review
  {
    if |b| == 0 {
      assert a + b == a;
    } else {
      var c := b[..|b| - 1];
      assert a + b == (a + c) + [b[|b| - 1]];
      assert (a + b)[..|a + b| - 1] == a + c;
      CollectAppend(a, c);
    }
  }

  /** One issue contributes a value to a stage exactly when both of that
      stage's stamps are present, and the value is their difference in hours. */
  lemma CollectOne(m: Marks)
    ensures Collect([m]).dev == Present(Hours(m.devIn, m.devOut))
    ensures Collect([m]).review == Present(Hours(m.reviewIn, m.reviewOut))
    ensures |Collect([m]).dev| == 1 <==> m.devIn.Some? && m.devOut.Some?
    ensures |Collect([m]).review| == 1 <==> m.reviewIn.Some? && m.reviewOut.Some?
  {
    assert [m][..0] == [];
  }
}
