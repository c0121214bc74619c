/** What the LED manager is meant to be: a cyclic sequence of notifications
    with a cursor on the displayed one. */
module LedRing {
  import opened Sequences

  /** `cursor` is the position of the displayed entry, 0 when there is none. */
  datatype Ring<T> = Ring(entries: seq<T>, cursor: nat) {
    predicate Valid() {
      if entries == [] then cursor == 0 else cursor < |entries|
    }

    /** A new entry goes to the end; the display does not move. */
    function Append(x: T): Ring<T> {
      Ring(entries + [x], cursor)
    }

    /** Only when the displayed entry goes does the display move, to its cyclic
        successor. */
    function RemoveAt(k: nat): Ring<T>
      requires Valid() && k < |entries|
    {
      Ring(Without(entries, k),
           if k < cursor then cursor - 1
           else if k == cursor && k + 1 == |entries| then 0
           else cursor)
    }

    function Next(): Ring<T> {
      Ring(entries, if cursor + 1 < |entries| then cursor + 1 else 0)
    }
  }

  /** `Remove` takes out the first of several equal entries. */
  datatype Op<T> = Add(x: T) | Remove(x: T) | Tick

  /** The first position of `x` in `s`, |s| if there is none. */
  function IndexOf<T(==)>(s: seq<T>, x: T): (i: nat)
    ensures i <= |s|
    ensures i < |s| ==> s[i] == x
    ensures x in s <==> i < |s|
    ensures forall j | 0 <= j < i :: s[j] != x
  {
    if s == [] || s[0] == x then 0 else 1 + IndexOf(s[1..], x)
  }

  predicate Enabled<T(==)>(r: Ring<T>, op: Op<T>) {
    op.Remove? ==> op.x in r.entries
  }

  function Apply<T(==)>(r: Ring<T>, op: Op<T>): (r': Ring<T>)
    requires r.Valid() && Enabled(r, op)
    ensures r'.Valid()
  {
    match op
    case Add(x) => r.Append(x)
    case Remove(x) => r.RemoveAt(IndexOf(r.entries, x))
    case Tick => r.Next()
  }

  /** What is not possible does nothing. */
  function Do<T(==)>(r: Ring<T>, op: Op<T>): (r': Ring<T>)
    requires r.Valid()
    ensures r'.Valid()
  {
    if Enabled(r, op) then Apply(r, op) else r
  }

  predicate AllEnabled<T(==)>(r: Ring<T>, ops: seq<Op<T>>)
    requires r.Valid()
    decreases |ops|
  {
    ops == [] || (Enabled(r, ops[0]) && AllEnabled(Apply(r, ops[0]), ops[1..]))
  }

  function ApplyAll<T(==)>(r: Ring<T>, ops: seq<Op<T>>): (r': Ring<T>)
    requires r.Valid() && AllEnabled(r, ops)
    ensures r'.Valid()
    decreases |ops|
  {
    if ops == [] then r else ApplyAll(Apply(r, ops[0]), ops[1..])
  }

  lemma {:induction false} ApplyConcat<T>(r: Ring<T>, a: seq<Op<T>>, b: seq<Op<T>>)
    requires r.Valid()
    ensures AllEnabled(r, a + b) <==> AllEnabled(r, a) && AllEnabled(ApplyAll(r, a), b)
    ensures AllEnabled(r, a + b) ==> ApplyAll(r, a + b) == ApplyAll(ApplyAll(r, a), b)
    decreases |a|
  {
    if a == [] {
      assert a + b == b;
    } else {
      assert (a + b)[0] == a[0] && (a + b)[1..] == a[1..] + b;
      if Enabled(r, a[0]) {
        ApplyConcat(Apply(r, a[0]), a[1..], b);
      }
    }
  }

  /** The entries in the order in which they will be displayed. */
  function Rotation<T>(r: Ring<T>): (s: seq<T>)
    requires r.Valid()
    ensures |s| == |r.entries|
  {
    r.entries[r.cursor..] + r.entries[..r.cursor]
  }

  /** Where in the rotation the entry at position `k` stands. */
  function Place<T>(r: Ring<T>, k: nat): (j: nat)
    requires r.Valid() && k < |r.entries|
    ensures j < |r.entries|
  {
    if k >= r.cursor then k - r.cursor else |r.entries| - r.cursor + k
  }

  lemma RotationHas<T>(r: Ring<T>, x: T)
    requires r.Valid()
    ensures x in Rotation(r) <==> x in r.entries
  {
    assert r.entries == r.entries[..r.cursor] + r.entries[r.cursor..];
  }

  /** How many accepted ticks away the display is from the nearest `x`. */
  function Distance<T(==)>(r: Ring<T>, x: T): (d: nat)
    requires r.Valid() && x in r.entries
    ensures d < |r.entries|
  {
    RotationHas(r, x);
    IndexOf(Rotation(r), x)
  }

  lemma IndexIs<T>(s: seq<T>, x: T, i: nat)
    requires i < |s| && s[i] == x && forall j | 0 <= j < i :: s[j] != x
    ensures IndexOf(s, x) == i
  {
  }

  /** The potential. A tick brings `x` one step nearer, ... */
  lemma TickDistance<T>(r: Ring<T>, x: T)
    requires r.Valid() && x in r.entries && r.entries[r.cursor] != x
    ensures r.Next().Valid() && Distance(r.Next(), x) == Distance(r, x) - 1
  {
    RotationHas(r, x);
    var s := Rotation(r);
    assert s[0] == r.entries[r.cursor];
    assert Rotation(r.Next()) == s[1..] + [s[0]];
    IndexIs(Rotation(r.Next()), x, IndexOf(s, x) - 1);
  }

  /** The nearest `x` is displayed only after the end of the list, and so after a
      `y` that is added. */
  predicate ComesBefore<T(==)>(r: Ring<T>, y: T, x: T)
    requires r.Valid() && x in r.entries
  {
    y != x && |r.entries| - r.cursor <= Distance(r, x)
  }

  /** ... an addition takes it further away by one step if `x` is displayed only
      after the end of the list, ... */
  lemma AddDistance<T>(r: Ring<T>, y: T, x: T)
    requires r.Valid() && x in r.entries
    ensures Distance(r.Append(y), x) ==
            if ComesBefore(r, y, x) then Distance(r, x) + 1
            else if y == x && |r.entries| - r.cursor < Distance(r, x) then |r.entries| - r.cursor
            else Distance(r, x)
  {
    RotationHas(r, x);
    var s, k := Rotation(r), |r.entries| - r.cursor;
    var d := IndexOf(s, x);
    assert Rotation(r.Append(y)) == s[..k] + [y] + s[k..];
    IndexIs(Rotation(r.Append(y)), x, if d < k then d else if y == x then k else d + 1);
  }

  lemma RotationOf<T>(a: seq<T>, b: seq<T>)
    requires Ring(a + b, |a|).Valid()
    ensures Rotation(Ring(a + b, |a|)) == b + a
  {
  }

  lemma WithoutConcat<T>(a: seq<T>, b: seq<T>, k: nat)
    requires k < |a| + |b|
    ensures Without(a + b, k) == if k < |a| then Without(a, k) + b else a + Without(b, k - |a|)
  {
  }

  lemma RemoveParts<T>(a: seq<T>, b: seq<T>, k: nat)
    requires Ring(a + b, |a|).Valid() && k < |a| + |b|
    ensures Ring(a + b, |a|).RemoveAt(k) ==
            if k < |a| then Ring(Without(a, k) + b, |a| - 1)
            else if k == |a| && |b| == 1 then Ring(a, 0)
            else Ring(a + Without(b, k - |a|), |a|)
  {
    hide Without;
    WithoutConcat(a, b, k);
    if k == |a| && |b| == 1 {
      assert Without(b, 0) == [] && a + [] == a;
    }
  }

  lemma RotationWithout<T>(r: Ring<T>, k: nat)
    requires r.Valid() && k < |r.entries|
    ensures var j := Place(r, k);
            && Rotation(r)[j] == r.entries[k]
            && r.RemoveAt(k).Valid() && Rotation(r.RemoveAt(k)) == Without(Rotation(r), j)
  {
    var a, b := r.entries[..r.cursor], r.entries[r.cursor..];
    assert r.entries == a + b && |a| == r.cursor;
    hide Without, Rotation, Ring.RemoveAt;
    RotationOf(a, b);
    RemoveParts(a, b, k);
    WithoutConcat(b, a, Place(r, k));
    if k < |a| {
      RotationOf(Without(a, k), b);
    } else if k == |a| && |b| == 1 {
      var none: seq<T> := [];
      RotationOf(none, a);
      assert Without(b, 0) == none && none + a == a && a + none == a;
    } else {
      RotationOf(a, Without(b, k - |a|));
    }
  }

  lemma WithoutOther<T>(s: seq<T>, j: nat, x: T)
    requires j < |s| && s[j] != x && x in s
    ensures var d := IndexOf(s, x);
            x in Without(s, j) && IndexOf(Without(s, j), x) == if j < d then d - 1 else d
  {
    hide Without;
    var d := IndexOf(s, x);
    var d' := if j < d then d - 1 else d;
    assert Without(s, j)[d'] == x;
    IndexIs(Without(s, j), x, d');
  }

  /** ... and the removal of another entry brings it nearer if that one came
      before it, and otherwise leaves it. */
  lemma RemoveDistance<T>(r: Ring<T>, y: T, x: T)
    requires r.Valid() && x in r.entries && y in r.entries && y != x
    ensures var k, d := IndexOf(r.entries, y), Distance(r, x);
            var r' := r.RemoveAt(k);
            r'.Valid() && x in r'.entries && Distance(r', x) == if Place(r, k) < d then d - 1 else d
  {
    hide Rotation, Without, Ring.RemoveAt;
    var k := IndexOf(r.entries, y);
    RotationHas(r, x);
    RotationWithout(r, k);
    RotationHas(r.RemoveAt(k), x);
    WithoutOther(Rotation(r), Place(r, k), x);
  }

  /** A removal takes the first `x` of the list, which may or may not be the one
      that is displayed next. */
  predicate TakesNearest<T(==)>(r: Ring<T>, x: T)
    requires r.Valid() && x in r.entries
  {
    Place(r, IndexOf(r.entries, x)) == Distance(r, x)
  }

  /** The entries other than `x` between the nearest `x` and the next one. */
  function Gap<T(==)>(r: Ring<T>, x: T): nat
    requires r.Valid() && x in r.entries
  {
    IndexOf(Rotation(r)[Distance(r, x) + 1..], x)
  }

  /** The removal of an `x` makes the others wait for the next one: it goes to
      the nearest one, and that is not followed by another. */
  predicate SetsBack<T(==)>(r: Ring<T>, x: T)
    requires r.Valid() && x in r.entries
  {
    TakesNearest(r, x) && Gap(r, x) > 0
  }

  function Setback<T(==)>(r: Ring<T>, x: T): (n: nat)
    requires r.Valid() && x in r.entries
    ensures n > 0 <==> SetsBack(r, x)
  {
    if TakesNearest(r, x) then Gap(r, x) else 0
  }

  lemma IndexOfConcat<T>(a: seq<T>, b: seq<T>, x: T)
    requires x !in a && x in b
    ensures IndexOf(a + b, x) == |a| + IndexOf(b, x)
  {
    IndexIs(a + b, x, |a| + IndexOf(b, x));
  }

  lemma WithoutEqual<T>(s: seq<T>, j: nat, x: T)
    requires j < |s| && s[j] == x && x in Without(s, j)
    ensures var d := IndexOf(s, x);
            IndexOf(Without(s, j), x) == if j == d then d + IndexOf(s[d + 1..], x) else d
  {
    var d := IndexOf(s, x);
    if j == d {
      IndexOfConcat(s[..d], s[d + 1..], x);
    } else {
      IndexIs(Without(s, j), x, d);
    }
  }

  /** The removal of an equal entry, exactly. */
  lemma RemoveEqualDistance<T>(r: Ring<T>, x: T)
    requires r.Valid() && x in r.entries && x in r.RemoveAt(IndexOf(r.entries, x)).entries
    ensures var r' := r.RemoveAt(IndexOf(r.entries, x));
            r'.Valid() && Distance(r', x) == Distance(r, x) + Setback(r, x)
  {
    hide Rotation, Without, Ring.RemoveAt;
    var k := IndexOf(r.entries, x);
    RotationHas(r, x);
    RotationWithout(r, k);
    RotationHas(r.RemoveAt(k), x);
    WithoutEqual(Rotation(r), Place(r, k), x);
  }

  /** Along `ops` every operation is possible and some `x` is there throughout. */
  ghost predicate Survives<T>(r: Ring<T>, ops: seq<Op<T>>, x: T)
    requires r.Valid()
    decreases |ops|
  {
    && x in r.entries
    && (ops != [] ==> Enabled(r, ops[0]) && Survives(Apply(r, ops[0]), ops[1..], x))
  }

  /** `x` is on display now or after some of `ops`. */
  ghost predicate EverDisplayed<T>(r: Ring<T>, ops: seq<Op<T>>, x: T)
    requires r.Valid() && Survives(r, ops, x)
    decreases |ops|
  {
    || r.entries[r.cursor] == x
    || (ops != [] && EverDisplayed(Apply(r, ops[0]), ops[1..], x))
  }

  function Ticks<T(==)>(ops: seq<Op<T>>): nat {
    if ops == [] then 0 else (if ops[0] == Tick then 1 else 0) + Ticks(ops[1..])
  }

  function Adds<T(==)>(ops: seq<Op<T>>): nat {
    if ops == [] then 0 else (if ops[0].Add? then 1 else 0) + Adds(ops[1..])
  }

  /** By how much `ops` delay the display of `x`: an addition that comes before it
      by one step; the removal of an `x` when another one is left, by the entries
      up to that one if the nearest goes. */
  ghost function Delay<T>(r: Ring<T>, ops: seq<Op<T>>, x: T): nat
    requires r.Valid() && Survives(r, ops, x)
    decreases |ops|
  {
    if ops == [] then 0
    else DelayOf(r, ops[0], x) + Delay(Apply(r, ops[0]), ops[1..], x)
  }

  function DelayOf<T(==)>(r: Ring<T>, op: Op<T>, x: T): nat
    requires r.Valid() && x in r.entries
  {
    match op
    case Add(y) => if ComesBefore(r, y, x) then 1 else 0
    case Remove(y) => if y == x then Setback(r, x) else 0
    case Tick => 0
  }

  /** The additions that come before `x`. */
  ghost function AddsBefore<T>(r: Ring<T>, ops: seq<Op<T>>, x: T): (n: nat)
    requires r.Valid() && Survives(r, ops, x)
    ensures n <= Adds(ops)
    decreases |ops|
  {
    if ops == [] then 0
    else (if ops[0].Add? && ComesBefore(r, ops[0].x, x) then 1 else 0) + AddsBefore(Apply(r, ops[0]), ops[1..], x)
  }

  lemma StepDistance<T>(r: Ring<T>, op: Op<T>, x: T)
    requires r.Valid() && Enabled(r, op) && x in r.entries && x in Apply(r, op).entries
    requires r.entries[r.cursor] != x
    ensures var r' := Apply(r, op);
            && Distance(r', x) + (if op == Tick then 1 else 0) <= Distance(r, x) + DelayOf(r, op, x)
            && (DelayOf(r, op, x) > 0 ==> Distance(r', x) == Distance(r, x) + DelayOf(r, op, x))
  {
    match op {
      case Tick => TickDistance(r, x);
      case Add(y) => AddDistance(r, y, x);
      case Remove(y) =>
        if y != x {
          RemoveDistance(r, y, x);
        } else {
          RemoveEqualDistance(r, x);
        }
    }
  }

  /** Fairness under churn: what is there throughout gets displayed as soon as
      the accepted ticks make up for its distance and the delays. */
  lemma {:induction false} Fairness<T>(r: Ring<T>, ops: seq<Op<T>>, x: T)
    requires r.Valid() && Survives(r, ops, x)
    requires Ticks(ops) >= Distance(r, x) + Delay(r, ops, x)
    ensures EverDisplayed(r, ops, x)
    decreases |ops|
  {
    if r.entries[r.cursor] != x {
      assert Rotation(r)[0] == r.entries[r.cursor];
      assert Distance(r, x) > 0;
      StepDistance(r, ops[0], x);
      Fairness(Apply(r, ops[0]), ops[1..], x);
    }
  }

  /** No removal along `ops` sets `x` back. */
  ghost predicate NoneSetsBack<T>(r: Ring<T>, ops: seq<Op<T>>, x: T)
    requires r.Valid() && Survives(r, ops, x)
    decreases |ops|
  {
    ops != [] ==>
      (ops[0] == Remove(x) ==> !SetsBack(r, x)) && NoneSetsBack(Apply(r, ops[0]), ops[1..], x)
  }

  /** Additions that come before `x` are the only delays if and only if no removal
      takes the nearest `x` with another entry after it. */
  lemma {:induction false} DelayIsAddsExactly<T>(r: Ring<T>, ops: seq<Op<T>>, x: T)
    requires r.Valid() && Survives(r, ops, x)
    ensures Delay(r, ops, x) >= AddsBefore(r, ops, x)
    ensures Delay(r, ops, x) == AddsBefore(r, ops, x) <==> NoneSetsBack(r, ops, x)
    decreases |ops|
  {
    if ops != [] {
      DelayIsAddsExactly(Apply(r, ops[0]), ops[1..], x);
    }
  }

  lemma {:induction false} KeptSurvives<T>(r: Ring<T>, ops: seq<Op<T>>, x: T)
    requires r.Valid() && AllEnabled(r, ops) && x in r.entries && Remove(x) !in ops
    ensures Survives(r, ops, x) && NoneSetsBack(r, ops, x)
    decreases |ops|
  {
    if ops != [] {
      assert ops[0] in ops;
      if ops[0].Remove? {
        RemoveDistance(r, ops[0].x, x);
      }
      assert forall op | op in ops[1..] :: op in ops;
      KeptSurvives(Apply(r, ops[0]), ops[1..], x);
    }
  }

  /** Fairness for an entry of its own: while no equal entry is removed, its
      distance and the additions are all that its display has to wait for. */
  lemma FairnessWhileKept<T>(r: Ring<T>, ops: seq<Op<T>>, x: T)
    requires r.Valid() && AllEnabled(r, ops) && x in r.entries && Remove(x) !in ops
    requires Ticks(ops) >= Distance(r, x) + Adds(ops)
    ensures Survives(r, ops, x) && EverDisplayed(r, ops, x)
  {
    KeptSurvives(r, ops, x);
    DelayIsAddsExactly(r, ops, x);
    Fairness(r, ops, x);
  }

  // ---- the bound is exact ----

  /** Whatever happens from `r` on without a removal of an `x`, `n` ticks and one
      more for every addition that comes before it are enough to have `x`
      displayed. */
  ghost predicate Suffices<T(!new)>(r: Ring<T>, x: T, n: nat)
    requires r.Valid() && x in r.entries
  {
    forall ops | Survives(r, ops, x) && Remove(x) !in ops && Ticks(ops) >= n + AddsBefore(r, ops, x) ::
      EverDisplayed(r, ops, x)
  }

  function Bare<T>(n: nat): (ops: seq<Op<T>>)
    ensures |ops| == n && forall i | 0 <= i < n :: ops[i] == Tick
  {
    seq(n, _ => Tick)
  }

  /** Nothing but ticks, fewer than the distance, never gets there. */
  lemma {:induction false} TooFewTicks<T>(r: Ring<T>, x: T, n: nat)
    requires r.Valid() && x in r.entries && n < Distance(r, x)
    ensures Survives(r, Bare(n), x) && !EverDisplayed(r, Bare(n), x) && Ticks(Bare<T>(n)) == n && Adds(Bare<T>(n)) == 0
    decreases n
  {
    assert Rotation(r)[0] == r.entries[r.cursor] != x;
    if n > 0 {
      TickDistance(r, x);
      TooFewTicks(r.Next(), x, n - 1);
      assert Bare<T>(n) == [Tick] + Bare<T>(n - 1);
      assert Bare<T>(n)[1..] == Bare<T>(n - 1);
    }
  }

  /** The distance is the least number of ticks that is enough. */
  lemma DistanceIsExact<T(!new)>(r: Ring<T>, x: T, n: nat)
    requires r.Valid() && x in r.entries
    ensures Suffices(r, x, n) <==> Distance(r, x) <= n
  {
    if Distance(r, x) <= n {
      forall ops | Survives(r, ops, x) && Remove(x) !in ops && Ticks(ops) >= n + AddsBefore(r, ops, x)
        ensures EverDisplayed(r, ops, x)
      {
        SurvivesEnabled(r, ops, x);
        KeptSurvives(r, ops, x);
        DelayIsAddsExactly(r, ops, x);
        Fairness(r, ops, x);
      }
    } else {
      TooFewTicks(r, x, n);
      var ops: seq<Op<T>> := Bare(n);
      assert AddsBefore(r, ops, x) <= Adds(ops);
    }
  }

  lemma {:induction false} SurvivesEnabled<T>(r: Ring<T>, ops: seq<Op<T>>, x: T)
    requires r.Valid() && Survives(r, ops, x)
    ensures AllEnabled(r, ops)
    decreases |ops|
  {
    if ops != [] {
      SurvivesEnabled(Apply(r, ops[0]), ops[1..], x);
    }
  }

  /** After the removal of an equal entry the ticks that were enough before still
      are, if and only if it does not set `x` back: if it does, ticks alone show
      that they are not. */
  lemma RemovalDelaysExactly<T(!new)>(r: Ring<T>, x: T)
    requires r.Valid() && x in r.entries && x in Apply(r, Remove(x)).entries
    ensures Suffices(Apply(r, Remove(x)), x, Distance(r, x)) <==> !SetsBack(r, x)
  {
    RemoveEqualDistance(r, x);
    DistanceIsExact(Apply(r, Remove(x)), x, Distance(r, x));
  }

  lemma NoStep<T>(r: Ring<T>, x: T)
    requires r.Valid() && x in r.entries
    ensures Survives(r, [], x) && Ticks<T>([]) == 0 && Adds<T>([]) == 0
    ensures EverDisplayed(r, [], x) <==> r.entries[r.cursor] == x
  {
  }

  lemma OneStep<T>(r: Ring<T>, op: Op<T>, rest: seq<Op<T>>, x: T)
    requires r.Valid() && Enabled(r, op) && x in r.entries && Survives(Apply(r, op), rest, x)
    ensures Survives(r, [op] + rest, x)
    ensures EverDisplayed(r, [op] + rest, x) <==> r.entries[r.cursor] == x || EverDisplayed(Apply(r, op), rest, x)
    ensures Ticks([op] + rest) == Ticks(rest) + if op == Tick then 1 else 0
    ensures Adds([op] + rest) == Adds(rest) + if op.Add? then 1 else 0
  {
    assert ([op] + rest)[1..] == rest;
  }
}
