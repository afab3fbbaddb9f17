/** The body of the `plan` command: sort the fetched tickets by PERT mean
    (shortest first) and fill size buckets greedily under an hours cap of
    six hours per developer-day, never taking an XXL ticket. */
module Intake {
  import opened Tickets

  /** Size buckets, smallest first. */
  datatype Size = XS | S | M | L | XL | XXL

  /** One fetched issue: number, title and its three-point ticket. */
  datatype Candidate = Candidate(number: int, title: string, ticket: Ticket)

  /** The PERT mean `(o + 4m + p) / 6` of a ticket. */
  function Mean(t: Ticket): real
  {
    (t.optimistic + 4.0 * t.mode + t.pessimistic) / 6.0
  }

  function Key(c: Candidate): real
  {
    Mean(c.ticket)
  }

  /** A weighted average of the triad stays inside it. */
  lemma MeanWithinTriad(t: Ticket)
    requires t.optimistic <= t.mode <= t.pessimistic
    ensures t.optimistic <= Mean(t) <= t.pessimistic
    ensures Ordered(t) ==> t.optimistic < Mean(t) < t.pessimistic
  {
  }

  predicate SortedByMean(s: seq<Candidate>)
  {
    forall i, j :: 0 <= i < j < |s| ==> Key(s[i]) <= Key(s[j])
  }

  /** The entries of `s` whose mean is `v`, in order. */
  function WithMean(s: seq<Candidate>, v: real): seq<Candidate>
  {
    if |s| == 0 then []
    else (if Key(s[0]) == v then [s[0]] else []) + WithMean(s[1..], v)
  }

  /** One step of `WithMean`: the head is kept when it has mean `v`. */
  lemma WithMeanCons(x: Candidate, t: seq<Candidate>, v: real)
    ensures WithMean([x] + t, v) == (if Key(x) == v then [x] else []) + WithMean(t, v)
  {
    assert ([x] + t)[0] == x;
    assert ([x] + t)[1..] == t;
  }

  /** Every entry of a rearrangement of `rest` plus `c` is at least `x`'s
      mean when `x` heads the sorted `[x] + rest` and `c` is above it. */
  lemma HeadBelowAll(x: Candidate, rest: seq<Candidate>, c: Candidate, t: seq<Candidate>)
    requires SortedByMean([x] + rest) && Key(x) < Key(c)
    requires multiset(t) == multiset(rest) + multiset{c}
    ensures forall k :: 0 <= k < |t| ==> Key(x) <= Key(t[k])
  {
    forall k | 0 <= k < |t|
      ensures Key(x) <= Key(t[k])
    {
      assert t[k] in multiset(t);
      if t[k] in multiset(rest) {
        var m :| 0 <= m < |rest| && rest[m] == t[k];
        assert ([x] + rest)[m + 1] == t[k];
        assert ([x] + rest)[0] == x;
      }
    }
  }

  /** Places `c` in front of the first entry whose mean is not smaller, so
      it stays ahead of the entries it tied with. */
  function InsertByMean(c: Candidate, s: seq<Candidate>): (r: seq<Candidate>)
    requires SortedByMean(s)
    ensures SortedByMean(r)
    ensures multiset(r) == multiset(s) + multiset{c}
  {
    if |s| == 0 then [c]
    else if Key(c) <= Key(s[0]) then [c] + s
    else
      var t := InsertByMean(c, s[1..]);
      assert s == [s[0]] + s[1..];
      HeadBelowAll(s[0], s[1..], c, t);
      [s[0]] + t
  }

  /** Inserting `c` puts it ahead of every entry it ties with. */
  lemma {:induction false} InsertByMeanKeepsTies(c: Candidate, s: seq<Candidate>, v: real)
    requires SortedByMean(s)
    ensures WithMean(InsertByMean(c, s), v) == (if Key(c) == v then [c] else []) + WithMean(s, v)
  {
    var mine := if Key(c) == v then [c] else [];
    if |s| == 0 {
      WithMeanCons(c, [], v);
      assert [c] == [c] + [];
    } else if Key(c) <= Key(s[0]) {
      WithMeanCons(c, s, v);
    } else {
      var t := InsertByMean(c, s[1..]);
      InsertByMeanKeepsTies(c, s[1..], v);
      var head := if Key(s[0]) == v then [s[0]] else [];
      var rest := WithMean(s[1..], v);
      assert InsertByMean(c, s) == [s[0]] + t;
      WithMeanCons(s[0], t, v);
      WithMeanCons(s[0], s[1..], v);
      assert s == [s[0]] + s[1..];
      // A tie with `c` would contradict `Key(s[0]) < Key(c)`, so at most
      // one of `head` and `mine` is non-empty.
      assert head == [] || mine == [];
      assert head + (mine + rest) == mine + (head + rest);
    }
  }

  /** Python's `list.sort(key=mean)`: the result is ordered by mean and is
      a permutation of the input. */
  function SortByMean(s: seq<Candidate>): (r: seq<Candidate>)
    ensures SortedByMean(r)
    ensures multiset(r) == multiset(s)
  {
    if |s| == 0 then []
    else
      assert s == [s[0]] + s[1..];
      InsertByMean(s[0], SortByMean(s[1..]))
  }

  /** The sort is stable: tickets with equal means keep their input order. */
  lemma {:induction false} SortByMeanStable(s: seq<Candidate>, v: real)
    ensures WithMean(SortByMean(s), v) == WithMean(s, v)
  {
    if |s| > 0 {
      SortByMeanStable(s[1..], v);
      InsertByMeanKeepsTies(s[0], SortByMean(s[1..]), v);
    }
  }

  /** Positions below `hi` whose ticket is not classified XXL, ascending. */
  function Admissible(order: seq<Candidate>, classify: real -> Size, hi: nat): (ps: seq<nat>)
    requires hi <= |order|
    ensures forall k :: 0 <= k < |ps| ==> ps[k] < hi && classify(Key(order[ps[k]])) != XXL
    ensures forall k, l :: 0 <= k < l < |ps| ==> ps[k] < ps[l]
  {
    if hi == 0 then []
    else
      Admissible(order, classify, hi - 1)
        + (if classify(Key(order[hi - 1])) != XXL then [hi - 1] else [])
  }

  /** Sum of the means of `s`. */
  function TotalMean(s: seq<Candidate>): real
  {
    if |s| == 0 then 0.0 else TotalMean(s[..|s| - 1]) + Key(s[|s| - 1])
  }

  /** The entries of `s` classified into bucket `sz`, in order. */
  function OfSize(s: seq<Candidate>, classify: real -> Size, sz: Size): seq<Candidate>
  {
    if |s| == 0 then []
    else
      OfSize(s[..|s| - 1], classify, sz)
        + (if classify(Key(s[|s| - 1])) == sz then [s[|s| - 1]] else [])
  }

  /** The tickets at the given positions of `order`. */
  function At(order: seq<Candidate>, ps: seq<nat>): (r: seq<Candidate>)
    requires forall k :: 0 <= k < |ps| ==> ps[k] < |order|
    ensures |r| == |ps|
    ensures forall k :: 0 <= k < |ps| ==> r[k] == order[ps[k]]
  {
    seq(|ps|, k requires 0 <= k < |ps| => order[ps[k]])
  }

  lemma TotalMeanAppend(s: seq<Candidate>, x: Candidate)
    ensures TotalMean(s + [x]) == TotalMean(s) + Key(x)
  {
    assert (s + [x])[..|s|] == s;
  }

  lemma OfSizeAppend(s: seq<Candidate>, x: Candidate, classify: real -> Size, sz: Size)
    ensures OfSize(s + [x], classify, sz)
      == OfSize(s, classify, sz) + (if classify(Key(x)) == sz then [x] else [])
  {
    assert (s + [x])[..|s|] == s;
  }

  lemma {:induction false} OfSizeAbsent(s: seq<Candidate>, classify: real -> Size, sz: Size)
    requires forall k :: 0 <= k < |s| ==> classify(Key(s[k])) != sz
    ensures OfSize(s, classify, sz) == []
  {
    if |s| > 0 {
      OfSizeAbsent(s[..|s| - 1], classify, sz);
    }
  }

  lemma AtAppend(order: seq<Candidate>, ps: seq<nat>, i: nat)
    requires i < |order| && forall k :: 0 <= k < |ps| ==> ps[k] < |order|
    ensures At(order, ps + [i]) == At(order, ps) + [order[i]]
  {
  }

  /** The six buckets of the source's dictionary, all empty. */
  function EmptyBuckets(): (b: map<Size, seq<Candidate>>)
    ensures forall sz :: sz in b && b[sz] == []
  {
    var b := map[XS := [], S := [], M := [], L := [], XL := [], XXL := []];
    forall sz | true
      ensures sz in b
    {
      SizeListed(sz);
    }
    b
  }

  lemma SizeListed(sz: Size)
    ensures sz in {XS, S, M, L, XL, XXL}
  {
  }

  /** The running totals of the scan agree with the positions taken so far. */
  predicate Tally(order: seq<Candidate>, classify: real -> Size, picked: seq<nat>,
                  chosen: seq<Candidate>, used: real, buckets: map<Size, seq<Candidate>>)
  {
    && (forall k :: 0 <= k < |picked| ==> picked[k] < |order|)
    && chosen == At(order, picked)
    && used == TotalMean(chosen)
    && forall sz :: sz in buckets && buckets[sz] == OfSize(chosen, classify, sz)
  }

  /** The buckets and hours of a plan agree with the positions it took. */
  predicate Accounted(order: seq<Candidate>, classify: real -> Size, picked: seq<nat>,
                      used: real, buckets: map<Size, seq<Candidate>>)
  {
    && (forall k :: 0 <= k < |picked| ==> picked[k] < |order|)
    && Tally(order, classify, picked, At(order, picked), used, buckets)
  }

  /** Taking the ticket at position `i` keeps the totals in step. */
  lemma TakeKeepsTally(order: seq<Candidate>, classify: real -> Size, picked: seq<nat>,
                       chosen: seq<Candidate>, used: real, buckets: map<Size, seq<Candidate>>, i: nat)
    requires Tally(order, classify, picked, chosen, used, buckets) && i < |order|
    ensures var sz := classify(Key(order[i]));
      Tally(order, classify, picked + [i], chosen + [order[i]], used + Key(order[i]),
            buckets[sz := buckets[sz] + [order[i]]])
  {
    var sz := classify(Key(order[i]));
    AtAppend(order, picked, i);
    TotalMeanAppend(chosen, order[i]);
    forall b
      ensures OfSize(chosen + [order[i]], classify, b)
        == OfSize(chosen, classify, b) + (if sz == b then [order[i]] else [])
    {
      OfSizeAppend(chosen, order[i], classify, b);
    }
  }

  /** The outcome of `plan`: the buckets, the hours used, the cap, the
      sorted ticket list and the positions in it that were taken. */
  datatype IntakePlan = IntakePlan(
    buckets: map<Size, seq<Candidate>>,
    used: real,
    cap: int,
    order: seq<Candidate>,
    picked: seq<nat>)

  /** Every take but the last left the hours below the cap: the scan goes
      on after a take only while `used < cap`. */
  predicate UnderCapBeforeLast(order: seq<Candidate>, picked: seq<nat>, capHours: real)
    requires forall k :: 0 <= k < |picked| ==> picked[k] < |order|
  {
    forall k :: 0 < k < |picked| ==> TotalMean(At(order, picked[..k])) < capHours
  }

  /** One more take keeps every take but the last below the cap, provided
      the hours before it were below the cap. */
  lemma UnderCapSnoc(order: seq<Candidate>, picked: seq<nat>, i: nat, capHours: real)
    requires forall k :: 0 <= k < |picked| ==> picked[k] < |order|
    requires i < |order| && UnderCapBeforeLast(order, picked, capHours)
    requires |picked| > 0 ==> TotalMean(At(order, picked)) < capHours
    ensures UnderCapBeforeLast(order, picked + [i], capHours)
  {
    var q := picked + [i];
    forall k | 0 < k < |q|
      ensures TotalMean(At(order, q[..k])) < capHours
    {
      if k < |picked| {
        assert q[..k] == picked[..k];
      } else {
        assert q[..k] == picked;
      }
    }
  }

  /** The greedy shape of the scan over `order`: the taken positions are
      exactly the non-XXL ones before some stopping point, and the scan
      stopped there only because a take brought the hours up to the cap or
      the ticket at the stopping point no longer fitted (and, the list being
      sorted, nor did any after it). Every take but the last left the hours
      below the cap. */
  ghost predicate Greedy(order: seq<Candidate>, classify: real -> Size, picked: seq<nat>,
                         used: real, capHours: real)
  {
    exists stop ::
      && 0 <= stop <= |order|
      && picked == Admissible(order, classify, stop)
      && UnderCapBeforeLast(order, picked, capHours)
      && (stop < |order| ==> (|picked| > 0 && used >= capHours) || used + Key(order[stop]) > capHours)
  }

  /** With no hours at all, a free ticket that is not XXL is still taken:
      the cap only stops the scan after a take, so the empty plan is not
      greedy. */
  lemma ZeroCapTakesFreeTicket(c: Candidate, classify: real -> Size)
    requires Key(c) == 0.0 && classify(0.0) != XXL
    ensures !Greedy([c], classify, [], 0.0, 0.0)
  {
    assert Admissible([c], classify, 1) == [0];
  }

  /** With no hours at all, the scan stops after its first take: of two
      free tickets that are not XXL, only the first is taken. */
  lemma ZeroCapStopsAfterFirstTake(c0: Candidate, c1: Candidate, classify: real -> Size)
    requires Key(c0) == 0.0 && Key(c1) == 0.0 && classify(0.0) != XXL
    ensures !Greedy([c0, c1], classify, [0, 1], 0.0, 0.0)
    ensures Greedy([c0, c1], classify, [0], 0.0, 0.0)
  {
    var order := [c0, c1];
    assert At(order, [0, 1][..1]) == [c0];
    assert TotalMean([c0]) == 0.0 by {
      TotalMeanAppend([], c0);
      assert [] + [c0] == [c0];
    }
    assert Admissible(order, classify, 1) == [0];
    assert Admissible(order, classify, 2) == [0, 1];
  }

  /** The state of the scan of `plan` after the first `i` tickets of
      `order`: `overflow` is the first position that no longer fitted
      (-1 while every ticket so far fitted), `full` records that a take
      brought the hours up to the cap. */
  ghost predicate Scan(order: seq<Candidate>, classify: real -> Size, capHours: real, i: int,
                       picked: seq<nat>, chosen: seq<Candidate>, used: real,
                       buckets: map<Size, seq<Candidate>>, full: bool, overflow: int)
  {
    && 0 <= i <= |order|
    && (overflow == -1 ==> picked == Admissible(order, classify, i))
    && (overflow != -1 ==>
          && 0 <= overflow < i
          && picked == Admissible(order, classify, overflow)
          && used + Key(order[overflow]) > capHours)
    && (full ==> overflow == -1 && used >= capHours && |picked| > 0)
    && (!full && |picked| > 0 ==> used < capHours)
    && Tally(order, classify, picked, chosen, used, buckets)
    && UnderCapBeforeLast(order, picked, capHours)
    && (|picked| > 0 ==> used <= capHours)
  }

  /** A ticket that does not fit is skipped, and the first one is remembered. */
  lemma SkipOverflow(order: seq<Candidate>, classify: real -> Size, capHours: real, i: nat,
                     picked: seq<nat>, chosen: seq<Candidate>, used: real,
                     buckets: map<Size, seq<Candidate>>, overflow: int)
    requires Scan(order, classify, capHours, i, picked, chosen, used, buckets, false, overflow)
    requires i < |order| && used + Key(order[i]) > capHours
    ensures Scan(order, classify, capHours, i + 1, picked, chosen, used, buckets, false,
                 if overflow == -1 then i else overflow)
  {
  }

  /** A fitting XXL ticket is skipped; none has overflowed yet, since the
      list is sorted by mean. */
  lemma SkipOversized(order: seq<Candidate>, classify: real -> Size, capHours: real, i: nat,
                      picked: seq<nat>, chosen: seq<Candidate>, used: real,
                      buckets: map<Size, seq<Candidate>>, overflow: int)
    requires SortedByMean(order)
    requires Scan(order, classify, capHours, i, picked, chosen, used, buckets, false, overflow)
    requires i < |order| && used + Key(order[i]) <= capHours
    requires classify(Key(order[i])) == XXL
    ensures overflow == -1
    ensures Scan(order, classify, capHours, i + 1, picked, chosen, used, buckets, false, -1)
  {
    assert Admissible(order, classify, i + 1) == Admissible(order, classify, i);
  }

  /** A fitting ticket of any other size is taken. */
  lemma Take(order: seq<Candidate>, classify: real -> Size, capHours: real, i: nat,
             picked: seq<nat>, chosen: seq<Candidate>, used: real,
             buckets: map<Size, seq<Candidate>>, overflow: int)
    requires SortedByMean(order)
    requires Scan(order, classify, capHours, i, picked, chosen, used, buckets, false, overflow)
    requires i < |order| && used + Key(order[i]) <= capHours
    requires classify(Key(order[i])) != XXL
    ensures overflow == -1
    ensures var sz := classify(Key(order[i]));
      var used' := used + Key(order[i]);
      Scan(order, classify, capHours, i + 1, picked + [i], chosen + [order[i]], used',
           buckets[sz := buckets[sz] + [order[i]]], used' >= capHours, -1)
  {
    assert Admissible(order, classify, i + 1) == Admissible(order, classify, i) + [i];
    TakeKeepsTally(order, classify, picked, chosen, used, buckets, i);
    UnderCapSnoc(order, picked, i, capHours);
  }

  /** A finished scan has the greedy shape, and the XXL bucket is empty. */
  lemma ScanDone(order: seq<Candidate>, classify: real -> Size, capHours: real, i: nat,
                 picked: seq<nat>, chosen: seq<Candidate>, used: real,
                 buckets: map<Size, seq<Candidate>>, full: bool, overflow: int)
    requires Scan(order, classify, capHours, i, picked, chosen, used, buckets, full, overflow)
    requires i == |order| || full
    ensures Accounted(order, classify, picked, used, buckets)
    ensures buckets[XXL] == []
    ensures Greedy(order, classify, picked, used, capHours)
  {
    OfSizeAbsent(chosen, classify, XXL);
    var stop := if overflow != -1 then overflow else i;
    assert picked == Admissible(order, classify, stop);
  }

  /** One round of the loop of `plan` over the ticket at position `i`:
      skip it when it does not fit or is XXL, otherwise take it and note
      whether the cap is now reached. */
  method Step(order: seq<Candidate>, classify: real -> Size, capHours: real, i: nat,
              picked: seq<nat>, ghost chosen: seq<Candidate>, used: real,
              buckets: map<Size, seq<Candidate>>, ghost overflow: int)
    returns (picked': seq<nat>, ghost chosen': seq<Candidate>, used': real,
             buckets': map<Size, seq<Candidate>>, full': bool, ghost overflow': int)
    requires SortedByMean(order) && i < |order|
    requires Scan(order, classify, capHours, i, picked, chosen, used, buckets, false, overflow)
    ensures Scan(order, classify, capHours, i + 1, picked', chosen', used', buckets', full', overflow')
    ensures var hrs := Key(order[i]);
      if used + hrs > capHours || classify(hrs) == XXL
      then picked' == picked && used' == used && buckets' == buckets && !full'
      else picked' == picked + [i] && used' == used + hrs && full' == (used' >= capHours)
  {
    picked', chosen', used', buckets', full', overflow' := picked, chosen, used, buckets, false, overflow;
    var hrs := Key(order[i]);
    if used + hrs > capHours {
      SkipOverflow(order, classify, capHours, i, picked, chosen, used, buckets, overflow);
      if overflow == -1 {
        overflow' := i;
      }
    } else {
      var sz := classify(hrs);
      if sz != XXL {
        Take(order, classify, capHours, i, picked, chosen, used, buckets, overflow);
        picked' := picked + [i];
        chosen' := chosen + [order[i]];
        buckets' := buckets[sz := buckets[sz] + [order[i]]];
        used' := used + hrs;
        full' := used' >= capHours;
        overflow' := -1;
      } else {
        SkipOversized(order, classify, capHours, i, picked, chosen, used, buckets, overflow);
      }
    }
  }

  /** The loop of `plan` over the sorted tickets. */
  method Fill(order: seq<Candidate>, classify: real -> Size, capHours: real)
    returns (buckets: map<Size, seq<Candidate>>, used: real, picked: seq<nat>)
    requires SortedByMean(order)
    ensures Accounted(order, classify, picked, used, buckets)
    ensures buckets[XXL] == []
    ensures |picked| > 0 ==> used <= capHours
    ensures Greedy(order, classify, picked, used, capHours)
  {
    buckets := EmptyBuckets();
    used := 0.0;
    picked := [];
    ghost var chosen: seq<Candidate> := [];
    var full := false;
    ghost var overflow: int := -1;
    var i := 0;
    while i < |order| && !full
      invariant Scan(order, classify, capHours, i, picked, chosen, used, buckets, full, overflow)
      decreases |order| - i
    {
      picked, chosen, used, buckets, full, overflow :=
        Step(order, classify, capHours, i, picked, chosen, used, buckets, overflow);
      i := i + 1;
    }
    ScanDone(order, classify, capHours, i, picked, chosen, used, buckets, full, overflow);
  }

  /** `plan`: sort by PERT mean, then fill the buckets under a cap of
      `team * length * 6` hours. */
  method Plan(triads: seq<Candidate>, team: int, length: int, classify: real -> Size)
    returns (p: IntakePlan)
    ensures p.cap == team * length * 6
    ensures p.order == SortByMean(triads)
    ensures Accounted(p.order, classify, p.picked, p.used, p.buckets)
    ensures p.buckets[XXL] == []
    ensures |p.picked| > 0 ==> p.used <= p.cap as real
    ensures Greedy(p.order, classify, p.picked, p.used, p.cap as real)
  {
    var order := SortByMean(triads);
    var cap := team * length * 6;
    var buckets, used, picked := Fill(order, classify, cap as real);
    p := IntakePlan(buckets, used, cap, order, picked);
  }
}
