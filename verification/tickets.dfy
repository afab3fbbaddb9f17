/** A work item with a three-point (optimistic / mode / pessimistic) effort
    estimate, and its Beta-PERT parameterisation. */
module Tickets {
  import opened Wrappers

  /** Construction is total: the ordering of the triad is checked only when
      the Beta parameters are asked for. */
  datatype Ticket = Ticket(
    number: int,
    optimistic: real,
    mode: real,
    pessimistic: real,
    dependencies: set<int>)

  /** The `ValueError` raised for a triad that is not strictly ordered. */
  datatype TicketError = UnorderedTriad

  datatype BetaShape = BetaShape(a: real, b: real)

  /** Beta(a, b) rescaled onto [low, high]. */
  datatype BetaDistribution = BetaDistribution(a: real, b: real, low: real, high: real)

  predicate Ordered(t: Ticket)
  {
    t.optimistic < t.mode < t.pessimistic
  }

  /** Beta shape parameters of the PERT distribution. The shapes always add
      up to 6, stay strictly between 1 and 5, and place the Beta mode
      `(a - 1) / (a + b - 2)` exactly at the ticket's mode. */
  function BetaParams(t: Ticket): (r: Result<BetaShape, TicketError>)
    ensures r.Ok? <==> Ordered(t)
    ensures r.Err? ==> r.error == UnorderedTriad
    ensures r.Ok? ==> r.value.a + r.value.b == 6.0
    ensures r.Ok? ==> 1.0 < r.value.a < 5.0 && 1.0 < r.value.b < 5.0
    ensures r.Ok? ==>
      t.optimistic + (t.pessimistic - t.optimistic) * (r.value.a - 1.0) / 4.0 == t.mode
  {
    if !(t.optimistic < t.mode < t.pessimistic) then Err(UnorderedTriad)
    else
      var width := t.pessimistic - t.optimistic;
      var a := 1.0 + 4.0 * (t.mode - t.optimistic) / width;
      var b := 1.0 + 4.0 * (t.pessimistic - t.mode) / width;
      ShapeFacts(t.optimistic, t.mode, t.pessimistic);
      Ok(BetaShape(a, b))
  }

  lemma ShapeFacts(o: real, m: real, p: real)
    requires o < m < p
    ensures 1.0 + 4.0 * (m - o) / (p - o) + (1.0 + 4.0 * (p - m) / (p - o)) == 6.0
    ensures 0.0 < (m - o) / (p - o) < 1.0
    ensures 0.0 < (p - m) / (p - o) < 1.0
    ensures o + (p - o) * (1.0 + 4.0 * (m - o) / (p - o) - 1.0) / 4.0 == m
  {
    var w := p - o;
    var x, y := (m - o) / w, (p - m) / w;
    assert x * w == m - o;
    assert y * w == p - m;
    assert (x + y - 1.0) * w == 0.0;
    assert x + y == 1.0;
    assert 4.0 * (m - o) / w == 4.0 * x by {
      assert (4.0 * x) * w == 4.0 * (m - o);
    }
    assert 4.0 * (p - m) / w == 4.0 * y by {
      assert (4.0 * y) * w == 4.0 * (p - m);
    }
  }

  /** The rescaled Beta distribution of a ticket: same shapes, support
      exactly [optimistic, pessimistic], and the same failure. */
  function BaseDistribution(t: Ticket): (r: Result<BetaDistribution, TicketError>)
    ensures r.Ok? <==> Ordered(t)
    ensures r.Err? ==> r.error == UnorderedTriad
    ensures r.Ok? ==>
      && r.value.low == t.optimistic
      && r.value.high == t.pessimistic
      && BetaParams(t) == Ok(BetaShape(r.value.a, r.value.b))
    ensures r.Ok? ==>
      r.value.low + (r.value.high - r.value.low) * (r.value.a - 1.0) / (r.value.a + r.value.b - 2.0)
        == t.mode
  {
    match BetaParams(t)
    case Err(e) => Err(e)
    case Ok(shape) => Ok(BetaDistribution(shape.a, shape.b, t.optimistic, t.pessimistic))
  }

  /** The mean of the rescaled Beta, `low + (high - low) * a / (a + b)`, is
      the classical PERT mean `(o + 4m + p) / 6`. */
  lemma BetaMeanIsPertMean(t: Ticket)
    requires Ordered(t)
    ensures var d := BaseDistribution(t).value;
      d.low + (d.high - d.low) * d.a / (d.a + d.b)
        == (t.optimistic + 4.0 * t.mode + t.pessimistic) / 6.0
  {
    var o, m, p := t.optimistic, t.mode, t.pessimistic;
    var d := BaseDistribution(t).value;
    assert d.a + d.b == 6.0;
    assert (p - o) * (d.a - 1.0) == 4.0 * (m - o);
    calc {
      d.low + (d.high - d.low) * d.a / (d.a + d.b);
      o + (p - o) * d.a / 6.0;
      o + ((p - o) * (d.a - 1.0) + (p - o)) / 6.0;
      o + (4.0 * (m - o) + (p - o)) / 6.0;
      (o + 4.0 * m + p) / 6.0;
    }
  }

  /** The shapes are equal exactly when the mode sits midway, and then both
      are 3. */
  lemma SymmetricTriad(t: Ticket)
    requires Ordered(t)
    ensures var s := BetaParams(t).value;
      (s.a == s.b <==> t.mode - t.optimistic == t.pessimistic - t.mode)
    ensures var s := BetaParams(t).value;
      t.mode - t.optimistic == t.pessimistic - t.mode ==> s.a == 3.0 && s.b == 3.0
  {
    var o, m, p := t.optimistic, t.mode, t.pessimistic;
    var s := BetaParams(t).value;
    var w := p - o;
    assert s.a == 1.0 + 4.0 * (m - o) / w;
    assert s.b == 1.0 + 4.0 * (p - m) / w;
    assert s.a - s.b == 4.0 * ((m - o) - (p - m)) / w;
    if m - o == p - m {
      assert 2.0 * (m - o) == w;
    }
  }

  /** Concrete triads: (1, 2, 3) is accepted, while (3, 2, 1) and the
      non-strict (2, 2, 3) are rejected. */
  lemma OrderingExamples(n: int)
    ensures BetaParams(Ticket(n, 1.0, 2.0, 3.0, {})) == Ok(BetaShape(3.0, 3.0))
    ensures BetaParams(Ticket(n, 3.0, 2.0, 1.0, {})) == Err(UnorderedTriad)
    ensures BetaParams(Ticket(n, 2.0, 2.0, 3.0, {})) == Err(UnorderedTriad)
  {
    SymmetricTriad(Ticket(n, 1.0, 2.0, 3.0, {}));
  }
}
