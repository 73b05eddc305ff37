/** The column reductions `sum`, `min` and `max` that both the record stream and
    the relation implement with `functools.reduce` over a collected column. */
module Aggregates {
  import opened Wrappers
  import opened Values

  /** Python's `bool` is a subclass of `int`: both take part in arithmetic. */
  predicate IsNumeric(v: Value) {
    v.Int? || v.Bool?
  }

  function Num(v: Value): int
    requires IsNumeric(v)
  {
    match v
    case Int(i) => i
    case Bool(b) => if b then 1 else 0
  }

  predicate AllNumeric(vs: seq<Value>) {
    forall i :: 0 <= i < |vs| ==> IsNumeric(vs[i])
  }

  predicate AllStr(vs: seq<Value>) {
    forall i :: 0 <= i < |vs| ==> vs[i].Str?
  }

  /** Lexicographic order on code points, Python's `<` on `str`. */
  predicate StrLess(a: string, b: string)
    decreases |a|
  {
    |b| > 0 && (|a| == 0 || a[0] < b[0] || (a[0] == b[0] && StrLess(a[1..], b[1..])))
  }

  lemma {:induction false} StrLessTransitive(a: string, b: string, c: string)
    requires StrLess(a, b) && StrLess(b, c)
    ensures StrLess(a, c)
    decreases |a|
  {
    if |a| > 0 && a[0] == b[0] && b[0] == c[0] {
      StrLessTransitive(a[1..], b[1..], c[1..]);
    }
  }

  lemma {:induction false} StrLessIrreflexive(a: string)
    ensures !StrLess(a, a)
    decreases |a|
  {
    if |a| > 0 {
      StrLessIrreflexive(a[1..]);
    }
  }

  /** Two values are comparable with `<` when both are numbers or both are strings. */
  predicate Comparable(a: Value, b: Value) {
    (IsNumeric(a) && IsNumeric(b)) || (a.Str? && b.Str?)
  }

  /** The ordering `<` induces on comparable values. */
  predicate Below(a: Value, b: Value)
    requires Comparable(a, b)
  {
    if a.Str? then StrLess(a.s, b.s) else Num(a) < Num(b)
  }

  lemma BelowIrreflexive(a: Value)
    requires Comparable(a, a)
    ensures !Below(a, a)
  {
    if a.Str? {
      StrLessIrreflexive(a.s);
    }
  }

  lemma BelowTransitive(a: Value, b: Value, c: Value)
    requires Comparable(a, b) && Comparable(b, c)
    requires Below(a, b) && Below(b, c)
    ensures Comparable(a, c) && Below(a, c)
  {
    if a.Str? {
      StrLessTransitive(a.s, b.s, c.s);
    }
  }

  /** `a < b`, or the TypeError Python raises for an unsupported comparison. */
  function Less(a: Value, b: Value): (r: Result<bool>)
    ensures r.Ok? <==> Comparable(a, b)
    ensures r.Ok? ==> r.value == Below(a, b)
  {
    if Comparable(a, b) then Ok(Below(a, b)) else Err(TypeError)
  }

  /** The arithmetic total of a column of numbers, added up from the front. */
  function Total(vs: seq<Value>): int
    requires AllNumeric(vs)
    decreases |vs|
  {
    if |vs| == 0 then 0 else Num(vs[0]) + Total(vs[1..])
  }

  /** Adding one more number at the back adds it to the total. */
  lemma {:induction false} TotalSnoc(vs: seq<Value>)
    requires |vs| > 0 && AllNumeric(vs)
    ensures AllNumeric(vs[..|vs| - 1])
    ensures Total(vs) == Total(vs[..|vs| - 1]) + Num(vs[|vs| - 1])
    decreases |vs|
  {
    var n := |vs| - 1;
    if n > 0 {
      assert vs[1..][..n - 1] == vs[..n][1..];
      TotalSnoc(vs[1..]);
    }
  }

  /** `reduce(lambda x, y: x + y, vs, 0)`: the total of the column, or TypeError
      at the first value that is not a number. */
  function Sum(vs: seq<Value>): (r: Result<int>)
    ensures r.Ok? <==> AllNumeric(vs)
    ensures r.Ok? ==> r.value == Total(vs)
  {
    if |vs| == 0 then Ok(0)
    else
      var n := |vs| - 1;
      var acc :- Sum(vs[..n]);
      assert forall i :: 0 <= i < n ==> vs[..n][i] == vs[i];
      if IsNumeric(vs[n]) then
        TotalSnoc(vs);
        Ok(acc + Num(vs[n]))
      else Err(TypeError)
  }

  /** Summing is a homomorphism from concatenation to addition. */
  lemma {:induction false} SumAppend(a: seq<Value>, b: seq<Value>)
    requires AllNumeric(a) && AllNumeric(b)
    ensures Sum(a + b).Ok?
    ensures Sum(a + b) == Ok(Sum(a).value + Sum(b).value)
    decreases |b|
  {
    assert AllNumeric(a + b);
    if |b| == 0 {
      assert a + b == a;
    } else {
      var n := |b| - 1;
      assert (a + b)[..|a + b| - 1] == a + b[..n];
      assert AllNumeric(b[..n]);
      SumAppend(a, b[..n]);
    }
  }

  /** `reduce(max, vs)`: `max(acc, v)` keeps `acc` unless `v > acc`. */
  function Max(vs: seq<Value>): (r: Result<Value>)
    ensures |vs| == 0 ==> r == Err(TypeError)
    ensures r.Ok? ==> r.value in vs
    ensures r.Ok? <==> |vs| == 1 || (|vs| > 1 && (AllNumeric(vs) || AllStr(vs)))
    ensures r.Ok? && |vs| > 1 ==> forall i :: 0 <= i < |vs| ==> Comparable(r.value, vs[i]) && !Below(r.value, vs[i])
  {
    if |vs| == 0 then Err(TypeError)
    else if |vs| == 1 then Ok(vs[0])
    else
      var n := |vs| - 1;
      var prefix := vs[..n];
      var acc := Max(prefix);
      assert forall i :: 0 <= i < n ==> prefix[i] == vs[i];
      assert forall v :: v in prefix ==> v in vs;
      if acc.Err? then Err(acc.error)
      else
        var greater := Less(acc.value, vs[n]);
        if greater.Err? then Err(TypeError)
        else
          var m := if greater.value then vs[n] else acc.value;
          assert |prefix| == 1 ==> acc.value == vs[0];
          forall i | 0 <= i < |vs|
            ensures Comparable(m, vs[i]) && !Below(m, vs[i])
          {
            BelowIrreflexive(vs[i]);
            if i < n && Below(m, vs[i]) {
              BelowIrreflexive(acc.value);
              BelowTransitive(acc.value, vs[n], vs[i]);
            }
          }
          Ok(m)
  }

  /** `reduce(min, vs)`: `min(acc, v)` keeps `acc` unless `v < acc`. */
  function Min(vs: seq<Value>): (r: Result<Value>)
    ensures |vs| == 0 ==> r == Err(TypeError)
    ensures r.Ok? ==> r.value in vs
    ensures r.Ok? <==> |vs| == 1 || (|vs| > 1 && (AllNumeric(vs) || AllStr(vs)))
    ensures r.Ok? && |vs| > 1 ==> forall i :: 0 <= i < |vs| ==> Comparable(vs[i], r.value) && !Below(vs[i], r.value)
  {
    if |vs| == 0 then Err(TypeError)
    else if |vs| == 1 then Ok(vs[0])
    else
      var n := |vs| - 1;
      var prefix := vs[..n];
      var acc := Min(prefix);
      assert forall i :: 0 <= i < n ==> prefix[i] == vs[i];
      assert forall v :: v in prefix ==> v in vs;
      if acc.Err? then Err(acc.error)
      else
        var smaller := Less(vs[n], acc.value);
        if smaller.Err? then Err(TypeError)
        else
          var m := if smaller.value then vs[n] else acc.value;
          assert |prefix| == 1 ==> acc.value == vs[0];
          forall i | 0 <= i < |vs|
            ensures Comparable(vs[i], m) && !Below(vs[i], m)
          {
            BelowIrreflexive(vs[i]);
            if i < n && Below(vs[i], m) {
              BelowIrreflexive(acc.value);
              BelowTransitive(vs[i], vs[n], acc.value);
            }
          }
          Ok(m)
  }
}
