/** Laws of mastery, and the fast forms of reading evidence against the simple ones. */
module MasteryTheorems {
  import opened Options
  import opened Mastery

  // ----- Decay ---------------------------------------------------------------------------------

  predicate Splits(decay: real -> real, a: real, b: real) {
    decay(a + b) == decay(a) * decay(b)
  }

  /** All that is used of 2 to the minus x. */
  ghost predicate Decay(decay: real -> real) {
    (forall x :: decay(x) > 0.0) && (forall a, b :: Splits(decay, a, b))
  }

  ghost predicate NonNegative(events: seq<Event>) {
    forall i | 0 <= i < |events| :: events[i].weight >= 0.0
  }

  lemma WeightSign(decay: real -> real, e: Event, asOf: real)
    requires Decay(decay) && e.weight >= 0.0
    ensures EffectiveWeight(decay, e, asOf) >= 0.0
    ensures EffectiveWeight(decay, e, asOf) > 0.0 <==> e.weight > 0.0
  {
    hide Splits, HalfLife;
    var d := decay(Age(e, asOf) / HalfLife(e.source));
    assert d > 0.0;
    Scale(e.weight, d);
  }

  lemma Scale(w: real, d: real)
    requires w >= 0.0 && d > 0.0
    ensures w * d >= 0.0 && (w * d > 0.0 <==> w > 0.0)
  {
  }

  // ----- Mastery is a weighted mean --------------------------------------------------------------

  /** There is a mastery exactly when some evidence carries weight. */
  lemma {:induction false} MasteryExistsIff(decay: real -> real, events: seq<Event>, asOf: real)
    requires Decay(decay) && NonNegative(events)
    ensures Denominator(decay, events, asOf) >= 0.0
    ensures Denominator(decay, events, asOf) > 0.0 <==> exists i :: 0 <= i < |events| && events[i].weight > 0.0
    ensures Plain(decay, events, asOf).Some? <==> exists i :: 0 <= i < |events| && events[i].weight > 0.0
  {
    hide EffectiveWeight, Decay;
    if events != [] {
      var n := |events| - 1;
      var front := events[..n];
      MasteryExistsIff(decay, front, asOf);
      WeightSign(decay, events[n], asOf);
      if i :| 0 <= i < |front| && front[i].weight > 0.0 { assert events[i].weight > 0.0; }
      if i :| 0 <= i < |events| && events[i].weight > 0.0 {
        if i < n { assert front[i].weight > 0.0; }
      }
    }
  }

  lemma TimesOrdered(v: real, lo: real, hi: real, w: real)
    requires lo <= v <= hi && w >= 0.0
    ensures lo * w <= v * w <= hi * w
  {
  }

  lemma SumStep(num: real, den: real, x: real, w: real, lo: real, hi: real)
    requires lo * den <= num <= hi * den && lo * w <= x <= hi * w
    ensures lo * (den + w) <= num + x <= hi * (den + w)
  {
    assert lo * (den + w) == lo * den + lo * w;
    assert hi * (den + w) == hi * den + hi * w;
  }

  lemma {:induction false} SumsAreBounded(decay: real -> real, events: seq<Event>, asOf: real, lo: real, hi: real)
    requires Decay(decay) && NonNegative(events) && forall i | 0 <= i < |events| :: lo <= events[i].value <= hi
    ensures var num, den := Numerator(decay, events, asOf), Denominator(decay, events, asOf); lo * den <= num <= hi * den
  {
    hide EffectiveWeight, Contribution, Decay;
    if events != [] {
      var n := |events| - 1;
      SumsAreBounded(decay, events[..n], asOf, lo, hi);
      ContributionIsBounded(decay, events[n], asOf, lo, hi);
      SumStep(Numerator(decay, events[..n], asOf), Denominator(decay, events[..n], asOf),
              Contribution(decay, events[n], asOf), EffectiveWeight(decay, events[n], asOf), lo, hi);
    }
  }

  lemma ContributionIsBounded(decay: real -> real, e: Event, asOf: real, lo: real, hi: real)
    requires Decay(decay) && e.weight >= 0.0 && lo <= e.value <= hi
    ensures var w := EffectiveWeight(decay, e, asOf); lo * w <= Contribution(decay, e, asOf) <= hi * w
  {
    hide EffectiveWeight, Decay;
    WeightSign(decay, e, asOf);
    TimesOrdered(e.value, lo, hi, EffectiveWeight(decay, e, asOf));
  }

  lemma QuotientIsBounded(num: real, den: real, lo: real, hi: real)
    requires den > 0.0 && lo * den <= num <= hi * den
    ensures lo <= num / den <= hi
  {
    assert (num / den) * den == num;
    Cancel(lo, num / den, den);
    Cancel(num / den, hi, den);
  }

  lemma Cancel(a: real, b: real, d: real)
    requires d > 0.0 && a * d <= b * d
    ensures a <= b
  {
    if b < a { Scale(a - b, d); }
  }

  /** Mastery lies between any bounds on the evidence, so between its least and greatest value. */
  lemma MasteryIsBetweenEvidence(decay: real -> real, events: seq<Event>, asOf: real, lo: real, hi: real)
    requires Decay(decay) && NonNegative(events) && Plain(decay, events, asOf).Some?
    requires forall i | 0 <= i < |events| :: lo <= events[i].value <= hi
    ensures lo <= Plain(decay, events, asOf).value <= hi
  {
    hide Numerator, Denominator, Decay;
    SumsAreBounded(decay, events, asOf, lo, hi);
    QuotientIsBounded(Numerator(decay, events, asOf), Denominator(decay, events, asOf), lo, hi);
  }

  lemma PullToObservation(likelihood: real, n: nat, prior: real, strength: real)
    requires strength > 0.0
    ensures Shrunk(likelihood, n, prior, strength) == likelihood - (likelihood - prior) * (strength / (n as real + strength))
  {
    var d := n as real + strength;
    assert likelihood * n as real + prior * strength == likelihood * d - (likelihood - prior) * strength;
    assert (likelihood * d - (likelihood - prior) * strength) / d == likelihood - (likelihood - prior) * strength / d;
    assert (likelihood - prior) * strength / d == (likelihood - prior) * (strength / d);
  }

  lemma PullIsPartial(n: nat, strength: real)
    requires strength > 0.0
    ensures 0.0 <= strength / (n as real + strength) <= 1.0
  {
    QuotientIsBounded(strength, n as real + strength, 0.0, 1.0);
  }

  /** Shrinking towards a prior keeps mastery between the observation and the prior. */
  lemma ShrinkageIsBetween(likelihood: real, n: nat, prior: real, strength: real)
    requires strength > 0.0
    ensures likelihood <= prior ==> likelihood <= Shrunk(likelihood, n, prior, strength) <= prior
    ensures prior <= likelihood ==> prior <= Shrunk(likelihood, n, prior, strength) <= likelihood
  {
    hide Shrunk;
    var pull := Pull(likelihood, n, prior, strength);
  }

  lemma Pull(likelihood: real, n: nat, prior: real, strength: real) returns (pull: real)
    requires strength > 0.0
    ensures Shrunk(likelihood, n, prior, strength) == likelihood - pull
    ensures likelihood <= prior ==> likelihood - prior <= pull <= 0.0
    ensures prior <= likelihood ==> 0.0 <= pull <= likelihood - prior
  {
    hide Shrunk;
    var x, p := likelihood - prior, strength / (n as real + strength);
    PullToObservation(likelihood, n, prior, strength);
    PullIsPartial(n, strength);
    PartIsBetween(x, p);
    pull := x * p;
  }

  lemma PartIsBetween(x: real, p: real)
    requires 0.0 <= p <= 1.0
    ensures x >= 0.0 ==> 0.0 <= x * p <= x
    ensures x <= 0.0 ==> x <= x * p <= 0.0
  {
    if x >= 0.0 {
      TimesOrdered(p, 0.0, 1.0, x);
    } else {
      TimesOrdered(p, 0.0, 1.0, -x);
      assert p * -x == -(x * p);
    }
  }

  /** More evidence moves the shrunk value away from the prior, never past the observation. */
  lemma MoreEvidenceTrustsTheObservation(likelihood: real, n: nat, m: nat, prior: real, strength: real)
    requires strength > 0.0 && n <= m
    ensures prior <= likelihood ==> Shrunk(likelihood, n, prior, strength) <= Shrunk(likelihood, m, prior, strength)
    ensures likelihood <= prior ==> Shrunk(likelihood, m, prior, strength) <= Shrunk(likelihood, n, prior, strength)
  {
    PullToObservation(likelihood, n, prior, strength);
    PullToObservation(likelihood, m, prior, strength);
    var a, b := n as real + strength, m as real + strength;
    var pn, pm := strength / a, strength / b;
    assert pm <= pn by {
      assert pm * b == strength && pn * a == strength && pn > 0.0;
      TimesOrdered(a, a, b, pn);
      assert pm * b <= pn * b;
      Cancel(pm, pn, b);
    }
    if prior <= likelihood { TimesOrdered(pm, pm, pn, likelihood - prior); } else { TimesOrdered(pm, pm, pn, prior - likelihood); }
    assert (likelihood - prior) * pn == -((prior - likelihood) * pn) && (likelihood - prior) * pm == -((prior - likelihood) * pm);
  }

  // ----- Time alone does not change mastery -------------------------------------------------------

  ghost predicate OneHalfLife(events: seq<Event>, h: real) {
    forall i | 0 <= i < |events| :: HalfLife(events[i].source) == h
  }

  lemma WeightsFadeTogether(decay: real -> real, e: Event, t: real, t': real, h: real)
    requires Decay(decay) && HalfLife(e.source) == h && e.at <= t <= t'
    ensures EffectiveWeight(decay, e, t') == EffectiveWeight(decay, e, t) * decay((t' - t) / h)
  {
    hide HalfLife;
    var x, y := (t - e.at) / h, (t' - t) / h;
    assert Splits(decay, x, y);
    assert (t' - e.at) / h == x + y;
    assert Age(e, t) == t - e.at && Age(e, t') == t' - e.at;
  }

  lemma {:induction false} SumsFadeTogether(decay: real -> real, events: seq<Event>, t: real, t': real, h: real)
    requires Decay(decay) && OneHalfLife(events, h) && h > 0.0 && t <= t' && forall i | 0 <= i < |events| :: events[i].at <= t
    ensures var c := decay((t' - t) / h);
            && Numerator(decay, events, t') == Numerator(decay, events, t) * c
            && Denominator(decay, events, t') == Denominator(decay, events, t) * c
  {
    hide EffectiveWeight, Decay, HalfLife;
    if events != [] {
      var n, c := |events| - 1, decay((t' - t) / h);
      var last := events[n];
      SumsFadeTogether(decay, events[..n], t, t', h);
      WeightsFadeTogether(decay, last, t, t', h);
      var w, num, den := EffectiveWeight(decay, last, t), Numerator(decay, events[..n], t), Denominator(decay, events[..n], t);
      assert num * c + last.value * (w * c) == (num + last.value * w) * c;
      assert den * c + w * c == (den + w) * c;
    }
  }

  lemma CommonFactor(num: real, den: real, c: real)
    requires c > 0.0
    ensures den * c > 0.0 <==> den > 0.0
    ensures den > 0.0 ==> (num * c) / (den * c) == num / den
  {
    if den > 0.0 { assert (num * c) == (num / den) * (den * c); }
  }

  /** If all evidence shares one half-life, advancing the clock without new evidence changes nothing. */
  lemma TimeAloneChangesNothing(decay: real -> real, events: seq<Event>, t: real, t': real, h: real)
    requires Decay(decay) && OneHalfLife(events, h) && h > 0.0 && t <= t' && forall i | 0 <= i < |events| :: events[i].at <= t
    ensures Plain(decay, events, t') == Plain(decay, events, t)
  {
    hide Numerator, Denominator, OneHalfLife;
    SumsFadeTogether(decay, events, t, t', h);
    var num, den, c := Numerator(decay, events, t), Denominator(decay, events, t), decay((t' - t) / h);
    var num', den' := Numerator(decay, events, t'), Denominator(decay, events, t');
    CommonFactor(num, den, c);
    assert num' == num * c && den' == den * c;
    if den > 0.0 {
      assert num' / den' == num / den;
      assert Likelihood(decay, events, t') == Some(num' / den');
    }
  }

  // ----- Mixed half-lives --------------------------------------------------------------------------

  function OfHalfLife(h: real): Event -> bool {
    (e: Event) => HalfLife(e.source) == h
  }

  lemma SumAppend(decay: real -> real, events: seq<Event>, e: Event, t: real)
    ensures Numerator(decay, events + [e], t) == Numerator(decay, events, t) + Contribution(decay, e, t)
    ensures Denominator(decay, events + [e], t) == Denominator(decay, events, t) + EffectiveWeight(decay, e, t)
  {
    hide EffectiveWeight, Contribution;
    assert (events + [e])[..|events|] == events;
  }

  lemma NothingToSum(decay: real -> real, h: real, t: real)
    ensures Numerator(decay, [], t) == 0.0 && Denominator(decay, [], t) == 0.0 && Keep([], OfHalfLife(h)) == []
  {
  }

  lemma {:induction false} SumsSplit(decay: real -> real, events: seq<Event>, t: real)
    ensures var long, short := Keep(events, OfHalfLife(60.0)), Keep(events, OfHalfLife(30.0));
            && Numerator(decay, events, t) == Numerator(decay, long, t) + Numerator(decay, short, t)
            && Denominator(decay, events, t) == Denominator(decay, long, t) + Denominator(decay, short, t)
  {
    hide EffectiveWeight, Contribution, Numerator, Denominator, Keep, HalfLife;
    if events == [] {
      NothingToSum(decay, 60.0, t);
      NothingToSum(decay, 30.0, t);
    } else {
      var front, last := events[..|events| - 1], events[|events| - 1];
      assert events == front + [last];
      SumsSplit(decay, front, t);
      SumAppend(decay, front, last, t);
      KeepAppend(front, last, OfHalfLife(60.0));
      KeepAppend(front, last, OfHalfLife(30.0));
      SumAppend(decay, Keep(front, OfHalfLife(60.0)), last, t);
      SumAppend(decay, Keep(front, OfHalfLife(30.0)), last, t);
    }
  }

  lemma {:induction false} KeptHalfLife(events: seq<Event>, h: real, t: real)
    requires forall i | 0 <= i < |events| :: events[i].at <= t
    ensures var kept := Keep(events, OfHalfLife(h)); OneHalfLife(kept, h) && forall i | 0 <= i < |kept| :: kept[i].at <= t
  {
    hide HalfLife;
    if events != [] { KeptHalfLife(events[..|events| - 1], h, t); }
  }

  lemma CrossMultiply(a: real, b: real, c: real, d: real)
    requires b > 0.0 && d > 0.0
    ensures c / d == a / b <==> c * b == a * d
  {
    var x, y := a / b, c / d;
    assert a == x * b && c == y * d;
    assert c * b == y * (d * b) && a * d == x * (d * b);
    if c * b == a * d {
      Scale(d, b);
      Cancel(x, y, d * b);
      Cancel(y, x, d * b);
    }
  }

  lemma FadedDifference(nl: real, ns: real, dl: real, ds: real, c: real)
    ensures (c * nl + c * (c * ns)) * (dl + ds) - (nl + ns) * (c * dl + c * (c * ds)) == c * ((1.0 - c) * (nl * ds - ns * dl))
  {
    assert (nl + c * ns) * (dl + ds) == nl * dl + nl * ds + c * (ns * dl) + c * (ns * ds);
    assert (nl + ns) * (dl + c * ds) == nl * dl + c * (nl * ds) + ns * dl + c * (ns * ds);
    assert (1.0 - c) * (nl * ds - ns * dl) == nl * ds - ns * dl - c * (nl * ds) + c * (ns * dl);
    var x, y := (nl + c * ns) * (dl + ds), (nl + ns) * (dl + c * ds);
    assert (c * nl + c * (c * ns)) * (dl + ds) == c * x;
    assert (nl + ns) * (c * dl + c * (c * ds)) == c * y;
    assert c * x - c * y == c * (x - y);
  }

  lemma ZeroProduct(a: real, b: real)
    ensures a * b == 0.0 <==> a == 0.0 || b == 0.0
  {
  }

  lemma MixedMeans(nl: real, ns: real, dl: real, ds: real, c: real, num: real, den: real)
    requires c > 0.0 && dl + ds > 0.0 && den > 0.0
    requires num == Times(c, nl) + Times(c, Times(c, ns)) && den == Times(c, dl) + Times(c, Times(c, ds))
    ensures num / den == (nl + ns) / (dl + ds) <==> c == 1.0 || nl * ds == ns * dl
  {
    CrossMultiply(nl + ns, dl + ds, num, den);
    FadedDifference(nl, ns, dl, ds, c);
    var gap := nl * ds - ns * dl;
    ZeroProduct(c, (1.0 - c) * gap);
    ZeroProduct(1.0 - c, gap);
  }

  /** The decay over the time passed squares when the half-life halves. */
  lemma ShortFadesTwice(decay: real -> real, d: real)
    requires Decay(decay)
    ensures decay(d / 30.0) == decay(d / 60.0) * decay(d / 60.0)
  {
    assert Splits(decay, d / 60.0, d / 60.0);
    assert d / 60.0 + d / 60.0 == d / 30.0;
  }

  /** Multiplication by name, so that sums can be rearranged without it. */
  function Times(a: real, b: real): real {
    a * b
  }

  lemma SumsOverTime(decay: real -> real, events: seq<Event>, t: real, t': real)
    requires Decay(decay) && t <= t' && forall i | 0 <= i < |events| :: events[i].at <= t
    ensures var long, short, c := Keep(events, OfHalfLife(60.0)), Keep(events, OfHalfLife(30.0)), decay((t' - t) / 60.0);
            && Numerator(decay, events, t) == Numerator(decay, long, t) + Numerator(decay, short, t)
            && Denominator(decay, events, t) == Denominator(decay, long, t) + Denominator(decay, short, t)
            && Numerator(decay, events, t') == Times(c, Numerator(decay, long, t)) + Times(c, Times(c, Numerator(decay, short, t)))
            && Denominator(decay, events, t') == Times(c, Denominator(decay, long, t)) + Times(c, Times(c, Denominator(decay, short, t)))
  {
    hide *;
    KeptHalfLife(events, 60.0, t);
    KeptHalfLife(events, 30.0, t);
    SumsSplit(decay, events, t);
    SumsSplit(decay, events, t');
    LongSumsFade(decay, Keep(events, OfHalfLife(60.0)), t, t');
    ShortSumsFade(decay, Keep(events, OfHalfLife(30.0)), t, t');
  }

  lemma LongSumsFade(decay: real -> real, events: seq<Event>, t: real, t': real)
    requires Decay(decay) && OneHalfLife(events, 60.0) && t <= t' && forall i | 0 <= i < |events| :: events[i].at <= t
    ensures var c := decay((t' - t) / 60.0);
            && Numerator(decay, events, t') == Times(c, Numerator(decay, events, t))
            && Denominator(decay, events, t') == Times(c, Denominator(decay, events, t))
  {
    hide *;
    SumsFadeTogether(decay, events, t, t', 60.0);
    var c := decay((t' - t) / 60.0);
    Swap(Numerator(decay, events, t), c);
    Swap(Denominator(decay, events, t), c);
  }

  lemma ShortSumsFade(decay: real -> real, events: seq<Event>, t: real, t': real)
    requires Decay(decay) && OneHalfLife(events, 30.0) && t <= t' && forall i | 0 <= i < |events| :: events[i].at <= t
    ensures var c := decay((t' - t) / 60.0);
            && Numerator(decay, events, t') == Times(c, Times(c, Numerator(decay, events, t)))
            && Denominator(decay, events, t') == Times(c, Times(c, Denominator(decay, events, t)))
  {
    hide *;
    SumsFadeTogether(decay, events, t, t', 30.0);
    ShortFadesTwice(decay, t' - t);
    SwapTwice(Numerator(decay, events, t), decay((t' - t) / 60.0), decay((t' - t) / 30.0));
    SwapTwice(Denominator(decay, events, t), decay((t' - t) / 60.0), decay((t' - t) / 30.0));
  }

  lemma Swap(x: real, c: real)
    ensures x * c == Times(c, x)
  {
  }

  lemma SwapTwice(x: real, c: real, c2: real)
    requires c2 == c * c
    ensures x * c2 == Times(c, Times(c, x))
  {
  }

  /** Advancing the clock without new evidence keeps mastery exactly when no decay has happened or
      the evidence of long and of short half-life has the same mean (in particular when there is only
      one kind). */
  lemma TimeKeepsMasteryIff(decay: real -> real, events: seq<Event>, t: real, t': real)
    requires Decay(decay) && NonNegative(events) && t <= t' && forall i | 0 <= i < |events| :: events[i].at <= t
    requires Plain(decay, events, t).Some?
    ensures Plain(decay, events, t').Some?
    ensures var long, short := Keep(events, OfHalfLife(60.0)), Keep(events, OfHalfLife(30.0));
            Plain(decay, events, t') == Plain(decay, events, t) <==>
            || decay((t' - t) / 60.0) == 1.0
            || Numerator(decay, long, t) * Denominator(decay, short, t) == Numerator(decay, short, t) * Denominator(decay, long, t)
  {
    hide Numerator, Denominator, Keep, OfHalfLife, NonNegative, Decay, Times;
    MasteryExistsIff(decay, events, t);
    MasteryExistsIff(decay, events, t');
    SumsOverTime(decay, events, t, t');
    DecayIsPositive(decay, (t' - t) / 60.0);
    var long, short, c := Keep(events, OfHalfLife(60.0)), Keep(events, OfHalfLife(30.0)), decay((t' - t) / 60.0);
    MixedMeans(Numerator(decay, long, t), Numerator(decay, short, t), Denominator(decay, long, t), Denominator(decay, short, t), c,
               Numerator(decay, events, t'), Denominator(decay, events, t'));
    PlainIs(decay, events, t);
    PlainIs(decay, events, t');
  }

  lemma DecayIsPositive(decay: real -> real, x: real)
    requires Decay(decay)
    ensures decay(x) > 0.0
  {
  }

  lemma PlainIs(decay: real -> real, events: seq<Event>, t: real)
    requires Plain(decay, events, t).Some?
    ensures Denominator(decay, events, t) > 0.0
    ensures Plain(decay, events, t) == Some(Numerator(decay, events, t) / Denominator(decay, events, t))
  {
    hide Numerator, Denominator;
  }

  /** An exam fully right and a practice fully wrong on the same day: half a mastery then, and two
      thirds sixty days later. */
  lemma MixedHalfLivesDrift(decay: real -> real)
    requires Decay(decay) && decay(1.0) == 0.5
    ensures var events := [Event(0, 0, 0, "期中", 1.0, 1.0, "", 0.0), Event(1, 0, 0, "练习", 0.0, 1.0, "", 0.0)];
            Plain(decay, events, 0.0) == Some(0.5) && Plain(decay, events, 60.0) == Some(2.0 / 3.0)
  {
    var a, b := Event(0, 0, 0, "期中", 1.0, 1.0, "", 0.0), Event(1, 0, 0, "练习", 0.0, 1.0, "", 0.0);
    var events := [a, b];
    assert Splits(decay, 1.0, 1.0) && Splits(decay, 0.0, 1.0);
    assert 0.0 + 1.0 == 1.0 && decay(0.0) * 0.5 == 0.5;
    assert decay(0.0) == 1.0 && decay(2.0) == 0.25;
    assert HalfLife(a.source) == 60.0 && HalfLife(b.source) == 30.0;
    assert events[..1] == [a] && [a][..0] == [];
    assert EffectiveWeight(decay, a, 0.0) == 1.0 && EffectiveWeight(decay, b, 0.0) == 1.0;
    assert EffectiveWeight(decay, a, 60.0) == 0.5 && EffectiveWeight(decay, b, 60.0) == 0.25;
    TwoEvents(decay, a, b, 0.0);
    TwoEvents(decay, a, b, 60.0);
  }

  lemma TwoEvents(decay: real -> real, a: Event, b: Event, t: real)
    ensures Numerator(decay, [a, b], t) == a.value * EffectiveWeight(decay, a, t) + b.value * EffectiveWeight(decay, b, t)
    ensures Denominator(decay, [a, b], t) == EffectiveWeight(decay, a, t) + EffectiveWeight(decay, b, t)
  {
    hide EffectiveWeight;
    var events := [a, b];
    assert events[..1] == [a] && [a][..0] == [];
    assert Numerator(decay, [a][..0], t) == 0.0 && Denominator(decay, [a][..0], t) == 0.0;
    assert Numerator(decay, [a], t) == a.value * EffectiveWeight(decay, a, t);
    assert Denominator(decay, [a], t) == EffectiveWeight(decay, a, t);
  }

  // ----- Sorting and filtering ---------------------------------------------------------------------

  ghost predicate Sorted(byKey: bool, events: seq<Event>) {
    forall i, k | 0 <= i < k < |events| :: !Before(byKey, events[k], events[i])
  }

  lemma {:induction false} InsertKeeps(byKey: bool, s: seq<Event>, e: Event)
    requires Sorted(byKey, s)
    ensures Sorted(byKey, Insert(byKey, s, e))
    ensures forall x :: x in Insert(byKey, s, e) <==> x in s || x == e
  {
    if s != [] {
      var front, last := s[..|s| - 1], s[|s| - 1];
      assert s == front + [last];
      if Before(byKey, e, last) {
        InsertKeeps(byKey, front, e);
        var more := Insert(byKey, front, e);
        forall i | 0 <= i < |more| ensures !Before(byKey, last, more[i]) {
          assert more[i] in more;
        }
      } else {
        forall i | 0 <= i < |s| ensures !Before(byKey, e, s[i]) {
        }
      }
    }
  }

  lemma {:induction false} SortSorts(byKey: bool, events: seq<Event>)
    ensures Sorted(byKey, Sort(byKey, events))
    ensures forall x :: x in Sort(byKey, events) <==> x in events
  {
    hide Sorted, Insert;
    if events != [] {
      SortSorts(byKey, events[..|events| - 1]);
      InsertKeeps(byKey, Sort(byKey, events[..|events| - 1]), events[|events| - 1]);
      assert events == events[..|events| - 1] + [events[|events| - 1]];
    } else {
      assert Sorted(byKey, Sort(byKey, events)) by { NothingIsSorted(byKey); }
    }
  }

  lemma NothingIsSorted(byKey: bool)
    ensures Sorted(byKey, [])
  {
  }

  lemma {:induction false} KeepHas(events: seq<Event>, f: Event -> bool)
    ensures forall x :: x in Keep(events, f) <==> x in events && f(x)
  {
    if events != [] {
      KeepHas(events[..|events| - 1], f);
      assert events == events[..|events| - 1] + [events[|events| - 1]];
    }
  }

  lemma KeepAppend(events: seq<Event>, e: Event, f: Event -> bool)
    ensures Keep(events + [e], f) == if f(e) then Keep(events, f) + [e] else Keep(events, f)
  {
    assert (events + [e])[..|events|] == events;
  }

  /** Among kept events the two orders agree. */
  ghost predicate Agree(f: Event -> bool, byKey: bool, byKey': bool) {
    forall x, y :: f(x) && f(y) ==> (Before(byKey, x, y) <==> Before(byKey', x, y))
  }

  lemma InsertLast(byKey: bool, s: seq<Event>, e: Event)
    requires forall x | x in s :: !Before(byKey, e, x)
    ensures Insert(byKey, s, e) == s + [e]
  {
  }

  lemma InsertPast(byKey: bool, s: seq<Event>, last: Event, e: Event)
    requires Before(byKey, e, last)
    ensures Insert(byKey, s + [last], e) == Insert(byKey, s, e) + [last]
  {
    assert (s + [last])[..|s|] == s;
  }

  lemma {:induction false} InsertThenKeep(s: seq<Event>, e: Event, f: Event -> bool, byKey: bool, byKey': bool)
    requires Sorted(byKey, s) && Agree(f, byKey, byKey')
    ensures Keep(Insert(byKey, s, e), f) == if f(e) then Insert(byKey', Keep(s, f), e) else Keep(s, f)
  {
    hide Before;
    if s == [] || !Before(byKey, e, s[|s| - 1]) {
      assert Insert(byKey, s, e) == s + [e];
      KeepAppend(s, e, f);
      if f(e) {
        forall x | x in Keep(s, f) ensures !Before(byKey', e, x) {
          KeepHas(s, f);
          NotBeforeAny(byKey, s, e, x);
        }
        InsertLast(byKey', Keep(s, f), e);
      }
    } else {
      var front, last := s[..|s| - 1], s[|s| - 1];
      InsertThenKeep(front, e, f, byKey, byKey');
      KeepAppend(Insert(byKey, front, e), last, f);
      if f(e) && f(last) { InsertPast(byKey', Keep(front, f), last, e); }
    }
  }

  lemma NotBeforeAny(byKey: bool, s: seq<Event>, e: Event, x: Event)
    requires Sorted(byKey, s) && x in s && s != [] && !Before(byKey, e, s[|s| - 1])
    ensures !Before(byKey, e, x)
  {
    var i :| 0 <= i < |s| && s[i] == x;
  }

  /** Filtering a sorted table is sorting the filtered one, even under a coarser order. */
  lemma {:induction false} SortThenKeep(events: seq<Event>, f: Event -> bool, byKey: bool, byKey': bool)
    requires Agree(f, byKey, byKey')
    ensures Keep(Sort(byKey, events), f) == Sort(byKey', Keep(events, f))
  {
    hide Before, Insert, Agree, Sorted;
    if events != [] {
      var front, last := events[..|events| - 1], events[|events| - 1];
      SortThenKeep(front, f, byKey, byKey');
      SortSorts(byKey, front);
      InsertThenKeep(Sort(byKey, front), last, f, byKey, byKey');
      var kept := Keep(front, f);
      assert (kept + [last])[..|kept|] == kept;
    }
  }

  lemma {:induction false} KeepTwice(events: seq<Event>, f: Event -> bool, g: Event -> bool, fg: Event -> bool)
    requires forall x :: fg(x) <==> f(x) && g(x)
    ensures Keep(Keep(events, f), g) == Keep(events, fg)
  {
    if events != [] {
      var front, last := events[..|events| - 1], events[|events| - 1];
      KeepTwice(front, f, g, fg);
      if f(last) { KeepAppend(Keep(front, f), last, g); }
    }
  }

  // ----- The batch query -------------------------------------------------------------------------

  type Pair = (nat, nat)

  function Lookup(out: map<Pair, seq<Event>>, pair: Pair): seq<Event> {
    if pair in out then out[pair] else []
  }

  function BatchRows(rows: seq<Event>, students: seq<nat>, points: seq<nat>, asOf: real, cog: Option<string>): seq<Event> {
    Sort(true, Keep(rows, Requested(students, points, asOf, cog)))
  }

  function OfPair(student: nat, point: nat): Event -> bool {
    (e: Event) => e.student == student && e.point == point
  }

  /** The pair's share of the batch is what its own query returns. */
  lemma BatchGroupIsQuery(rows: seq<Event>, students: seq<nat>, points: seq<nat>, asOf: real, cog: Option<string>, s: nat, k: nat)
    requires s in students && k in points
    ensures Keep(BatchRows(rows, students, points, asOf, cog), OfPair(s, k)) == GetEvents(rows, s, k, asOf, cog)
  {
    var f, g, fg := Requested(students, points, asOf, cog), OfPair(s, k), Matches(s, k, asOf, cog);
    hide Sort, Keep;
    SortThenKeep(Keep(rows, f), g, true, false);
    KeepTwice(rows, f, g, fg);
  }

  ghost predicate Mentions(events: seq<Event>, pair: Pair) {
    exists i :: 0 <= i < |events| && pair == (events[i].student, events[i].point)
  }

  ghost predicate Grouped(out: map<Pair, seq<Event>>, events: seq<Event>) {
    && (forall s, k :: Lookup(out, (s, k)) == Keep(events, OfPair(s, k)))
    && (forall pair | pair in out :: out[pair] != [] && Mentions(events, pair))
  }

  lemma MentionsMore(events: seq<Event>, e: Event, pair: Pair)
    ensures Mentions(events, pair) || pair == (e.student, e.point) ==> Mentions(events + [e], pair)
  {
    var more := events + [e];
    assert more[|events|] == e;
    if i :| 0 <= i < |events| && pair == (events[i].student, events[i].point) { assert more[i] == events[i]; }
  }

  lemma GroupStep(out: map<Pair, seq<Event>>, events: seq<Event>, e: Event)
    requires Grouped(out, events)
    ensures Grouped(out[(e.student, e.point) := Lookup(out, (e.student, e.point)) + [e]], events + [e])
  {
    hide Keep, Mentions;
    var out' := out[(e.student, e.point) := Lookup(out, (e.student, e.point)) + [e]];
    forall s, k ensures Lookup(out', (s, k)) == Keep(events + [e], OfPair(s, k)) {
      KeepAppend(events, e, OfPair(s, k));
      assert Lookup(out, (s, k)) == Keep(events, OfPair(s, k));
    }
    forall pair | pair in out' ensures out'[pair] != [] && Mentions(events + [e], pair) {
      MentionsMore(events, e, pair);
    }
  }

  lemma NothingGrouped()
    ensures Grouped(map[], [])
  {
  }

  method GetEventsBatch(rows: seq<Event>, students: seq<nat>, points: seq<nat>, asOf: real, cog: Option<string>)
    returns (out: map<Pair, seq<Event>>)
    ensures forall s, k | s in students && k in points :: Lookup(out, (s, k)) == GetEvents(rows, s, k, asOf, cog)
    ensures forall pair | pair in out :: pair.0 in students && pair.1 in points && out[pair] != []
  {
    hide GetEvents, BatchRows, Grouped, Keep;
    out := map[];
    if students != [] && points != [] {
      var batch := BatchRows(rows, students, points, asOf, cog);
      NothingGrouped();
      for i := 0 to |batch|
        invariant Grouped(out, batch[..i])
      {
        var e := batch[i];
        assert batch[..i + 1] == batch[..i] + [e];
        GroupStep(out, batch[..i], e);
        out := out[(e.student, e.point) := Lookup(out, (e.student, e.point)) + [e]];
      }
      assert batch[..|batch|] == batch;
      BatchInFull(rows, students, points, asOf, cog, out);
    }
  }

  lemma BatchInFull(rows: seq<Event>, students: seq<nat>, points: seq<nat>, asOf: real, cog: Option<string>, out: map<Pair, seq<Event>>)
    requires Grouped(out, BatchRows(rows, students, points, asOf, cog))
    ensures forall s, k | s in students && k in points :: Lookup(out, (s, k)) == GetEvents(rows, s, k, asOf, cog)
    ensures forall pair | pair in out :: pair.0 in students && pair.1 in points && out[pair] != []
  {
    hide GetEvents, BatchRows, Keep;
    BatchIsRequested(rows, students, points, asOf, cog);
    forall s, k | s in students && k in points ensures Lookup(out, (s, k)) == GetEvents(rows, s, k, asOf, cog) {
      BatchGroupIsQuery(rows, students, points, asOf, cog, s, k);
    }
  }

  lemma BatchIsRequested(rows: seq<Event>, students: seq<nat>, points: seq<nat>, asOf: real, cog: Option<string>)
    ensures forall e | e in BatchRows(rows, students, points, asOf, cog) :: e.student in students && e.point in points
  {
    hide Sort, Keep;
    SortSorts(true, Keep(rows, Requested(students, points, asOf, cog)));
    KeepHas(rows, Requested(students, points, asOf, cog));
  }

  // ----- The series ------------------------------------------------------------------------------

  function Until(t: real): Event -> bool {
    (e: Event) => e.at <= t
  }

  ghost predicate Rising(series: seq<Entry>) {
    forall i, k | 0 <= i < k < |series| :: series[i].at < series[k].at
  }

  /** Mastery at a time, from the events up to it. */
  function At(decay: real -> real, events: seq<Event>, t: real): Option<real> {
    Plain(decay, Keep(events, Until(t)), t)
  }

  /** The series against mastery at each time, over the events so far. */
  ghost predicate Traces(decay: real -> real, series: seq<Entry>, events: seq<Event>) {
    && Rising(series)
    && (forall i | 0 <= i < |series| :: At(decay, events, series[i].at) == Some(series[i].mastery))
    && (forall i | 0 <= i < |series| :: events != [] && series[i].at <= events[|events| - 1].at)
    && (forall k | 0 <= k < |events| && At(decay, events, events[k].at).Some? ::
          exists i :: 0 <= i < |series| && series[i].at == events[k].at)
  }

  lemma {:induction false} KeepAll(events: seq<Event>, f: Event -> bool)
    requires forall x | x in events :: f(x)
    ensures Keep(events, f) == events
  {
    if events != [] {
      KeepAll(events[..|events| - 1], f);
      assert events == events[..|events| - 1] + [events[|events| - 1]];
    }
  }

  /** Adding a latest event changes mastery at its own time only. */
  lemma LatestOnlyCountsNow(decay: real -> real, events: seq<Event>, e: Event, t: real)
    requires forall x | x in events :: x.at <= e.at
    ensures t < e.at ==> At(decay, events + [e], t) == At(decay, events, t)
    ensures t == e.at ==> At(decay, events + [e], t) == Plain(decay, events + [e], t) && At(decay, events, t) == Plain(decay, events, t)
  {
    hide Plain;
    KeepAppend(events, e, Until(t));
    if t == e.at { KeepAll(events, Until(t)); }
  }

  lemma MasteryStaysDefined(decay: real -> real, events: seq<Event>, e: Event, t: real)
    requires Decay(decay) && NonNegative(events + [e]) && Plain(decay, events, t).Some?
    ensures Plain(decay, events + [e], t).Some?
  {
    hide Plain, Decay;
    assert NonNegative(events) by {
      assert forall i | 0 <= i < |events| :: (events + [e])[i] == events[i];
    }
    MasteryExistsIff(decay, events, t);
    MasteryExistsIff(decay, events + [e], t);
    var i :| 0 <= i < |events| && events[i].weight > 0.0;
    assert (events + [e])[i].weight > 0.0;
  }

  /** After recording, the last entry is the new one, if there is a mastery; the others are older. */
  lemma RecordShape(decay: real -> real, series: seq<Entry>, events: seq<Event>, e: Event)
    requires Traces(decay, series, events) && forall x | x in events :: x.at <= e.at
    requires Plain(decay, events + [e], e.at).Some?
    ensures var m := Plain(decay, events + [e], e.at);
            var series' := Record(series, e.at, m);
            && series' != [] && series'[|series'| - 1] == Entry(e.at, m.value) && Rising(series')
            && series'[..|series'| - 1] <= series
            && (forall i | 0 <= i < |series| && series[i].at != e.at :: i < |series'| - 1)
  {
    hide Plain, At;
    assert events != [] ==> events[|events| - 1] in events;
  }

  /** Without a mastery at the new event's time the series stands as it is ... */
  lemma SkipStep(decay: real -> real, series: seq<Entry>, events: seq<Event>, e: Event)
    requires Decay(decay) && NonNegative(events + [e]) && Traces(decay, series, events)
    requires (forall x | x in events :: x.at <= e.at) && Plain(decay, events + [e], e.at).None?
    ensures Traces(decay, series, events + [e])
  {
    hide Plain, Decay, NonNegative, At;
    forall t: real | t <= e.at { LatestOnlyCountsNow(decay, events, e, t); }
    assert forall k | 0 <= k < |events| :: events[k] in events && (events + [e])[k] == events[k];
    NoEntryYet(decay, series, events, e);
  }

  /** ... and with one, its last entry speaks for that time. */
  lemma EntryStep(decay: real -> real, series: seq<Entry>, events: seq<Event>, e: Event)
    requires Traces(decay, series, events)
    requires (forall x | x in events :: x.at <= e.at) && Plain(decay, events + [e], e.at).Some?
    ensures Traces(decay, Record(series, e.at, Plain(decay, events + [e], e.at)), events + [e])
  {
    hide Plain, At, Record;
    var all, series' := events + [e], Record(series, e.at, Plain(decay, events + [e], e.at));
    forall t: real | t <= e.at { LatestOnlyCountsNow(decay, events, e, t); }
    assert forall k | 0 <= k < |events| :: events[k] in events && all[k] == events[k];
    RecordShape(decay, series, events, e);
    assert forall i | 0 <= i < |series'| - 1 :: series'[i] == series[i] && series'[i].at < e.at;
    forall k | 0 <= k < |all| && At(decay, all, all[k].at).Some?
      ensures exists i :: 0 <= i < |series'| && series'[i].at == all[k].at
    {
      if all[k].at == e.at {
        assert series'[|series'| - 1].at == e.at;
      } else {
        var i :| 0 <= i < |series| && series[i].at == events[k].at;
        assert series'[i] == series[i];
      }
    }
  }

  lemma RecordStep(decay: real -> real, series: seq<Entry>, events: seq<Event>, e: Event)
    requires Decay(decay) && NonNegative(events + [e]) && Traces(decay, series, events)
    requires forall x | x in events :: x.at <= e.at
    ensures Traces(decay, Record(series, e.at, Plain(decay, events + [e], e.at)), events + [e])
  {
    hide *;
    if Plain(decay, events + [e], e.at).None? {
      NothingRecorded(series, e.at, None);
      SkipStep(decay, series, events, e);
    } else {
      EntryStep(decay, series, events, e);
    }
  }

  lemma NothingRecorded(series: seq<Entry>, at: real, m: Option<real>)
    requires m.None?
    ensures Record(series, at, m) == series
  {
  }

  lemma NoEntryYet(decay: real -> real, series: seq<Entry>, events: seq<Event>, e: Event)
    requires Decay(decay) && NonNegative(events + [e]) && Traces(decay, series, events)
    requires forall x | x in events :: x.at <= e.at
    requires Plain(decay, events + [e], e.at).None?
    ensures forall i | 0 <= i < |series| :: series[i].at != e.at
  {
    hide Plain, Decay, NonNegative, At;
    forall i | 0 <= i < |series| ensures series[i].at != e.at {
      if series[i].at == e.at {
        LatestOnlyCountsNow(decay, events, e, e.at);
        MasteryStaysDefined(decay, events, e, e.at);
      }
    }
  }

  lemma {:induction false} SeriesTraces(decay: real -> real, events: seq<Event>)
    requires Decay(decay) && NonNegative(events) && Sorted(false, events)
    ensures Traces(decay, Series(decay, events), events)
  {
    hide Decay, Plain, Traces, Record;
    if events == [] { NothingTraced(decay); } else {
      var front, last := events[..|events| - 1], events[|events| - 1];
      SeriesTraces(decay, front);
      assert events == front + [last];
      RecordStep(decay, Series(decay, front), front, last);
    }
  }

  lemma NothingTraced(decay: real -> real)
    ensures Traces(decay, [], [])
  {
  }

  /** The events known at an earlier time are the earlier part of those known now. */
  lemma EventsUntil(rows: seq<Event>, student: nat, point: nat, asOf: real, t: real)
    requires t <= asOf
    ensures Keep(GetEvents(rows, student, point, asOf, None), Until(t)) == GetEvents(rows, student, point, t, None)
  {
    var f, g, fg := Matches(student, point, asOf, None), Until(t), Matches(student, point, t, None);
    hide Sort, Keep;
    SortThenKeep(Keep(rows, f), g, false, false);
    KeepTwice(rows, f, g, fg);
  }

  lemma EventsAreFair(rows: seq<Event>, student: nat, point: nat, asOf: real)
    requires NonNegative(rows)
    ensures var events := GetEvents(rows, student, point, asOf, None);
            Sorted(false, events) && NonNegative(events) && forall e | e in events :: e.at <= asOf
  {
    hide Sort, Keep, Sorted;
    var f := Matches(student, point, asOf, None);
    SortSorts(false, Keep(rows, f));
    KeepHas(rows, f);
    var events := GetEvents(rows, student, point, asOf, None);
    forall i | 0 <= i < |events| ensures events[i].weight >= 0.0 { assert events[i] in events; }
  }

  /** The series has strictly increasing times; each entry is exactly the mastery computed afresh
      at its time, same-time events included; and no time with a mastery is missing. */
  lemma SeriesIsMasteryAt(decay: real -> real, rows: seq<Event>, student: nat, point: nat, asOf: real)
    requires Decay(decay) && NonNegative(rows)
    ensures var events := GetEvents(rows, student, point, asOf, None);
            var series := Series(decay, events);
            && Rising(series)
            && (forall i | 0 <= i < |series| :: MasteryAt(decay, rows, student, point, series[i].at, None) == Some(series[i].mastery))
            && (forall k | 0 <= k < |events| && MasteryAt(decay, rows, student, point, events[k].at, None).Some? ::
                  exists i :: 0 <= i < |series| && series[i].at == events[k].at)
  {
    hide GetEvents, Series, Plain, Keep, Decay;
    var events := GetEvents(rows, student, point, asOf, None);
    EventsAreFair(rows, student, point, asOf);
    SeriesTraces(decay, events);
    var series := Series(decay, events);
    forall t | t <= asOf ensures Keep(events, Until(t)) == GetEvents(rows, student, point, t, None) {
      EventsUntil(rows, student, point, asOf, t);
    }
    assert forall k | 0 <= k < |events| :: events[k] in events;
  }

  // ----- What is read, and what it weighs ------------------------------------------------------------

  /** The evidence of a student at a point: exactly the rows up to the date, at the level if one is named, by time. */
  lemma GetEventsIs(rows: seq<Event>, student: nat, point: nat, asOf: real, cog: Option<string>)
    ensures var events := GetEvents(rows, student, point, asOf, cog);
            && (forall i, k | 0 <= i < k < |events| :: events[i].at <= events[k].at)
            && forall e :: e in events <==>
                 e in rows && e.student == student && e.point == point && e.at <= asOf && (cog == None || cog == Some(e.cog))
  {
    hide Sort, Keep;
    var kept := Keep(rows, Matches(student, point, asOf, cog));
    KeepHas(rows, Matches(student, point, asOf, cog));
    SortSorts(false, kept);
    var events := GetEvents(rows, student, point, asOf, cog);
    forall i, k | 0 <= i < k < |events| ensures events[i].at <= events[k].at {
      assert !Before(false, events[k], events[i]);
    }
  }

  /** Days after which evidence counts half: thirty for diagnostics and exercises, sixty for everything else. */
  function DaysToHalve(source: string): real {
    if source in ["诊断", "练习"] then 30.0 else 60.0
  }

  lemma HalfLifeIs(source: string)
    ensures HalfLife(source) == DaysToHalve(source)
  {
  }

  lemma DecayStarts(decay: real -> real)
    requires Decay(decay)
    ensures decay(0.0) == 1.0
  {
    assert Splits(decay, 0.0, 0.0);
    assert decay(0.0) * (decay(0.0) - 1.0) == 0.0;
  }

  /** Evidence has its full weight on its day, and before; it loses half of what is left with every half-life. */
  lemma WeightHalves(decay: real -> real, e: Event, asOf: real)
    requires Decay(decay) && decay(1.0) == 0.5
    ensures asOf <= e.at ==> EffectiveWeight(decay, e, asOf) == e.weight
    ensures e.at <= asOf ==> EffectiveWeight(decay, e, asOf + DaysToHalve(e.source)) == EffectiveWeight(decay, e, asOf) * 0.5
  {
    hide HalfLife, DaysToHalve;
    HalfLifeIs(e.source);
    DecayStarts(decay);
    var h := HalfLife(e.source);
    if e.at <= asOf {
      WeightsFadeTogether(decay, e, asOf, asOf + h, h);
      assert (asOf + h - asOf) / h == 1.0;
    }
    if asOf <= e.at { assert Age(e, asOf) / h == 0.0; }
  }

  /** Shrinking is averaging n observations with as many prior ones as the strength says. */
  lemma ShrunkIs(likelihood: real, n: nat, prior: real, strength: real)
    requires strength > 0.0
    ensures Shrunk(likelihood, n, prior, strength) * (n as real + strength) == likelihood * n as real + prior * strength
  {
  }
}
