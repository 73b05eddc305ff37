/** Sequence vocabulary shared by the stream, relation and spill-store models:
    Python-style indexing, flattening, filtering, first-seen deduplication and the
    seeded XOR fold behind the order-independent content hashes. */
module SeqUtil {
  import opened Values

  /** Strictly ascending. */
  predicate Increasing(s: seq<int>) {
    forall i, j :: 0 <= i < j < |s| ==> s[i] < s[j]
  }

  /** `xs[i]` succeeds in Python iff `-len(xs) <= i < len(xs)`. */
  predicate PyIndexOk(n: nat, i: int) {
    -(n as int) <= i < n
  }

  /** The non-negative position a valid Python index denotes. */
  function PyNormalize(n: nat, i: int): (p: nat)
    requires PyIndexOk(n, i)
    ensures p < n
    ensures 0 <= i ==> p == i
    ensures i < 0 ==> p == n + i
  {
    if i < 0 then n + i else i
  }

  function Image<T, K>(xs: seq<T>, h: T -> K): (ys: seq<K>)
    ensures |ys| == |xs|
    ensures forall i :: 0 <= i < |xs| ==> ys[i] == h(xs[i])
  {
    seq(|xs|, i requires 0 <= i < |xs| => h(xs[i]))
  }

  /** The elements of `xs` at the positions `idx`, in that order. */
  function Pick<T>(xs: seq<T>, idx: seq<nat>): (ys: seq<T>)
    requires forall k :: 0 <= k < |idx| ==> idx[k] < |xs|
    ensures |ys| == |idx|
    ensures forall k :: 0 <= k < |idx| ==> ys[k] == xs[idx[k]]
  {
    seq(|idx|, k requires 0 <= k < |idx| => xs[idx[k]])
  }

  function Flatten<T>(ss: seq<seq<T>>): seq<T> {
    if |ss| == 0 then [] else ss[0] + Flatten(ss[1..])
  }

  lemma {:induction false} FlattenAppend<T>(a: seq<seq<T>>, b: seq<seq<T>>)
    ensures Flatten(a + b) == Flatten(a) + Flatten(b)
    decreases |a|
  {
    if |a| == 0 {
      assert a + b == b;
    } else {
      assert (a + b)[1..] == a[1..] + b;
      FlattenAppend(a[1..], b);
    }
  }

  /** Flattening after a prefix `b` takes the first part, then the rest. */
  lemma FlattenCons<T>(b: seq<T>, ms: seq<seq<T>>)
    requires |ms| > 0
    ensures b + ms[0] + Flatten(ms[1..]) == b + Flatten(ms)
  {
    var m, f := ms[0], Flatten(ms[1..]);
    assert Flatten(ms) == m + f;
    AppendAssoc(b, m, f);
  }

  lemma AppendAssoc<T>(a: seq<T>, b: seq<T>, c: seq<T>)
    ensures a + b + c == a + (b + c)
  {
  }

  lemma {:induction false} InFlatten<T>(ss: seq<seq<T>>, i: nat, k: nat)
    requires i < |ss| && k < |ss[i]|
    ensures ss[i][k] in Flatten(ss)
    decreases i
  {
    assert Flatten(ss) == ss[0] + Flatten(ss[1..]);
    if i > 0 {
      InFlatten(ss[1..], i - 1, k);
    } else {
      assert Flatten(ss)[k] == ss[0][k];
    }
  }

  lemma {:induction false} FromFlatten<T>(ss: seq<seq<T>>, x: T)
    requires x in Flatten(ss)
    ensures exists i, k :: 0 <= i < |ss| && 0 <= k < |ss[i]| && ss[i][k] == x
    decreases |ss|
  {
    assert Flatten(ss) == ss[0] + Flatten(ss[1..]);
    if x in ss[0] {
      var k :| 0 <= k < |ss[0]| && ss[0][k] == x;
      assert ss[0][k] == x;
    } else {
      FromFlatten(ss[1..], x);
      var i, k :| 0 <= i < |ss[1..]| && 0 <= k < |ss[1..][i]| && ss[1..][i][k] == x;
      assert ss[i + 1][k] == x;
    }
  }

  lemma FlattenSnoc<T>(a: seq<seq<T>>, s: seq<T>)
    ensures Flatten(a + [s]) == Flatten(a) + s
  {
    FlattenAppend(a, [s]);
    assert Flatten([s]) == s + Flatten([]);
  }

  /** `filter(p, xs)` / a generator yielding the items for which `p` holds. */
  function Filter<T>(xs: seq<T>, p: T -> bool): (r: seq<T>)
    ensures |r| <= |xs|
    ensures forall x :: x in r ==> x in xs && p(x)
    ensures forall x :: x in xs && p(x) ==> x in r
  {
    if |xs| == 0 then []
    else
      var rest := Filter(xs[1..], p);
      assert forall x :: x in xs ==> x == xs[0] || x in xs[1..];
      if p(xs[0]) then [xs[0]] + rest else rest
  }

  lemma {:induction false} FilterAll<T>(xs: seq<T>, p: T -> bool)
    requires forall i :: 0 <= i < |xs| ==> p(xs[i])
    ensures Filter(xs, p) == xs
    decreases |xs|
  {
    if |xs| > 0 {
      FilterAll(xs[1..], p);
    }
  }

  /** The positions `Filter` keeps: exactly those whose item satisfies `p`,
      ascending, so the filtered sequence is an order-preserving subsequence. */
  function FilterIndices<T>(xs: seq<T>, p: T -> bool): (idx: seq<nat>)
    ensures forall k :: 0 <= k < |idx| ==> idx[k] < |xs|
    ensures Increasing(idx)
    ensures forall i :: 0 <= i < |xs| ==> (i in idx <==> p(xs[i]))
    ensures Pick(xs, idx) == Filter(xs, p)
    decreases |xs|
  {
    if |xs| == 0 then []
    else
      var rest := FilterIndices(xs[1..], p);
      var shifted := seq(|rest|, k requires 0 <= k < |rest| => rest[k] + 1);
      ShiftedIndices(xs, p, rest, shifted);
      if p(xs[0]) then [0] + shifted else shifted
  }

  lemma ShiftedIndices<T>(xs: seq<T>, p: T -> bool, rest: seq<nat>, shifted: seq<nat>)
    requires |xs| > 0
    requires forall k :: 0 <= k < |rest| ==> rest[k] < |xs| - 1
    requires Increasing(rest)
    requires forall i :: 0 <= i < |xs| - 1 ==> (i in rest <==> p(xs[1..][i]))
    requires Pick(xs[1..], rest) == Filter(xs[1..], p)
    requires |shifted| == |rest| && forall k :: 0 <= k < |rest| ==> shifted[k] == rest[k] + 1
    ensures var idx := if p(xs[0]) then [0] + shifted else shifted;
      && (forall k :: 0 <= k < |idx| ==> idx[k] < |xs|)
      && Increasing(idx)
      && (forall i :: 0 <= i < |xs| ==> (i in idx <==> p(xs[i])))
      && Pick(xs, idx) == Filter(xs, p)
  {
    ShiftedOrder(rest, shifted, p(xs[0]));
    ShiftedBounds(xs, p, rest, shifted);
    ShiftedMembers(xs, p, rest, shifted);
    ShiftedPick(xs, p, rest, shifted);
  }

  lemma ShiftedBounds<T>(xs: seq<T>, p: T -> bool, rest: seq<nat>, shifted: seq<nat>)
    requires |xs| > 0
    requires forall k :: 0 <= k < |rest| ==> rest[k] < |xs| - 1
    requires |shifted| == |rest| && forall k :: 0 <= k < |rest| ==> shifted[k] == rest[k] + 1
    ensures var idx := if p(xs[0]) then [0] + shifted else shifted;
      forall k :: 0 <= k < |idx| ==> idx[k] < |xs|
  {
  }

  lemma ShiftedMembers<T>(xs: seq<T>, p: T -> bool, rest: seq<nat>, shifted: seq<nat>)
    requires |xs| > 0
    requires forall i :: 0 <= i < |xs| - 1 ==> (i in rest <==> p(xs[1..][i]))
    requires |shifted| == |rest| && forall k :: 0 <= k < |rest| ==> shifted[k] == rest[k] + 1
    ensures var idx := if p(xs[0]) then [0] + shifted else shifted;
      forall i :: 0 <= i < |xs| ==> (i in idx <==> p(xs[i]))
  {
    forall i | 0 <= i < |xs|
      ensures i in (if p(xs[0]) then [0] + shifted else shifted) <==> p(xs[i])
    {
      ShiftedMember(xs, p, rest, shifted, i);
    }
  }

  lemma ShiftedMember<T>(xs: seq<T>, p: T -> bool, rest: seq<nat>, shifted: seq<nat>, i: nat)
    requires 0 < |xs| && i < |xs|
    requires forall i :: 0 <= i < |xs| - 1 ==> (i in rest <==> p(xs[1..][i]))
    requires |shifted| == |rest| && forall k :: 0 <= k < |rest| ==> shifted[k] == rest[k] + 1
    ensures i in (if p(xs[0]) then [0] + shifted else shifted) <==> p(xs[i])
  {
    if i > 0 {
      assert xs[1..][i - 1] == xs[i];
      if i - 1 in rest {
        var k :| 0 <= k < |rest| && rest[k] == i - 1;
        assert shifted[k] == i;
      }
      if i in shifted {
        var k :| 0 <= k < |shifted| && shifted[k] == i;
        assert rest[k] == i - 1;
      }
    } else {
      assert 0 !in shifted;
    }
  }

  lemma ShiftedPick<T>(xs: seq<T>, p: T -> bool, rest: seq<nat>, shifted: seq<nat>)
    requires |xs| > 0
    requires forall k :: 0 <= k < |rest| ==> rest[k] < |xs| - 1
    requires Pick(xs[1..], rest) == Filter(xs[1..], p)
    requires |shifted| == |rest| && forall k :: 0 <= k < |rest| ==> shifted[k] == rest[k] + 1
    ensures Pick(xs, if p(xs[0]) then [0] + shifted else shifted) == Filter(xs, p)
  {
    PickShifted(xs, rest, shifted);
    if p(xs[0]) {
      PickCons(xs, shifted);
    }
  }

  lemma PickShifted<T>(xs: seq<T>, rest: seq<nat>, shifted: seq<nat>)
    requires |xs| > 0
    requires forall k :: 0 <= k < |rest| ==> rest[k] < |xs| - 1
    requires |shifted| == |rest| && forall k :: 0 <= k < |rest| ==> shifted[k] == rest[k] + 1
    ensures Pick(xs, shifted) == Pick(xs[1..], rest)
  {
    var tail := xs[1..];
    var ps := Pick(xs, shifted);
    assert forall k :: 0 <= k < |ps| ==> ps[k] == tail[rest[k]];
  }

  lemma PickCons<T>(xs: seq<T>, shifted: seq<nat>)
    requires |xs| > 0
    requires forall k :: 0 <= k < |shifted| ==> shifted[k] < |xs|
    ensures Pick(xs, [0] + shifted) == [xs[0]] + Pick(xs, shifted)
  {
    var pz := Pick(xs, [0] + shifted);
    assert forall k :: 0 < k < |pz| ==> pz[k] == xs[shifted[k - 1]];
  }

  lemma ShiftedOrder(rest: seq<nat>, shifted: seq<nat>, first: bool)
    requires Increasing(rest)
    requires |shifted| == |rest| && forall k :: 0 <= k < |rest| ==> shifted[k] == rest[k] + 1
    ensures Increasing(if first then [0] + shifted else shifted)
  {
    var idx := if first then [0] + shifted else shifted;
    forall a, b | 0 <= a < b < |idx|
      ensures idx[a] < idx[b]
    {
      if first && a > 0 {
        assert idx[a] == shifted[a - 1] && idx[b] == shifted[b - 1];
      }
    }
  }

  /** Both predicates at once. */
  function Both<T>(p: T -> bool, q: T -> bool): T -> bool {
    x => p(x) && q(x)
  }

  /** Filtering twice is filtering once by both predicates. */
  lemma {:induction false} FilterFilter<T>(xs: seq<T>, p: T -> bool, q: T -> bool)
    ensures Filter(Filter(xs, p), q) == Filter(xs, Both(p, q))
    decreases |xs|
  {
    if |xs| > 0 {
      FilterFilter(xs[1..], p, q);
      if p(xs[0]) {
        assert Filter(xs, p)[1..] == Filter(xs[1..], p);
      }
    }
  }

  /** Filtering keeps a duplicate-free sequence duplicate-free. */
  lemma {:induction false} FilterNoDup<T>(xs: seq<T>, p: T -> bool)
    requires NoDup(xs)
    ensures NoDup(Filter(xs, p))
    decreases |xs|
  {
    if |xs| > 0 {
      var rest := Filter(xs[1..], p);
      FilterNoDup(xs[1..], p);
      if p(xs[0]) {
        assert xs[0] !in xs[1..];
        var r := [xs[0]] + rest;
        forall i, j | 0 <= i < j < |r|
          ensures r[i] != r[j]
        {
          if i == 0 {
            assert r[j] in rest;
          }
        }
      }
    }
  }

  lemma NoDupAppend<T>(a: seq<T>, b: seq<T>)
    requires NoDup(a) && NoDup(b)
    requires forall x :: x in b ==> x !in a
    ensures NoDup(a + b)
  {
    var c := a + b;
    forall i, j | 0 <= i < j < |c|
      ensures c[i] != c[j]
    {
      if j < |a| {
        assert c[i] == a[i] && c[j] == a[j];
      } else if i < |a| {
        assert c[j] == b[j - |a|] && c[j] in b;
        assert c[i] == a[i];
      } else {
        assert c[i] == b[i - |a|] && c[j] == b[j - |a|];
      }
    }
  }

  /** The positions whose hash has not been seen at an earlier position: the
      positions a first-seen deduplication keeps. */
  function FirstSeenIndices<T, K(==)>(xs: seq<T>, h: T -> K): (idx: seq<nat>)
    ensures forall k :: 0 <= k < |idx| ==> idx[k] < |xs|
    ensures Increasing(idx)
    ensures forall i :: 0 <= i < |xs| ==> (i in idx <==> h(xs[i]) !in Image(xs[..i], h))
    decreases |xs|
  {
    if |xs| == 0 then []
    else
      var n := |xs| - 1;
      var p := FirstSeenIndices(xs[..n], h);
      FirstSeenStep(xs, h, p);
      if h(xs[n]) in Image(xs[..n], h) then p else p + [n]
  }

  lemma FirstSeenStep<T, K>(xs: seq<T>, h: T -> K, p: seq<nat>)
    requires |xs| > 0
    requires forall k :: 0 <= k < |p| ==> p[k] < |xs| - 1
    requires Increasing(p)
    requires forall i :: 0 <= i < |xs| - 1 ==> (i in p <==> h(xs[..|xs| - 1][i]) !in Image(xs[..|xs| - 1][..i], h))
    ensures forall i :: 0 <= i < |xs| - 1 ==> (i in p <==> h(xs[i]) !in Image(xs[..i], h))
    ensures Increasing(p + [|xs| - 1])
  {
    var n := |xs| - 1;
    forall i | 0 <= i < n
      ensures i in p <==> h(xs[i]) !in Image(xs[..i], h)
    {
      assert xs[..n][i] == xs[i];
      assert xs[..n][..i] == xs[..i];
    }
  }

  /** First-seen deduplication by hash: the items whose hash was not produced by
      an earlier item, in their original order. */
  function FirstSeen<T, K(==)>(xs: seq<T>, h: T -> K): (r: seq<T>)
    ensures forall x :: x in r ==> x in xs
  {
    Pick(xs, FirstSeenIndices(xs, h))
  }

  /** The three promises of first-seen deduplication: the survivors' hashes are
      pairwise distinct, every input hash survives, and survivors keep their order. */
  lemma FirstSeenSpec<T, K>(xs: seq<T>, h: T -> K)
    ensures NoDup(Image(FirstSeen(xs, h), h))
    ensures forall i :: 0 <= i < |xs| ==> h(xs[i]) in Image(FirstSeen(xs, h), h)
    ensures var idx := FirstSeenIndices(xs, h);
            Increasing(idx) && FirstSeen(xs, h) == Pick(xs, idx)
  {
    FirstSeenDistinct(xs, h);
    forall i | 0 <= i < |xs|
      ensures h(xs[i]) in Image(FirstSeen(xs, h), h)
    {
      FirstSeenCovers(xs, h, i);
    }
  }

  lemma FirstSeenDistinct<T, K>(xs: seq<T>, h: T -> K)
    ensures NoDup(Image(FirstSeen(xs, h), h))
  {
    var idx := FirstSeenIndices(xs, h);
    var img := Image(FirstSeen(xs, h), h);
    forall a, b | 0 <= a < b < |img|
      ensures img[a] != img[b]
    {
      var i, j := idx[a], idx[b];
      assert i < j && j in idx;
      assert h(xs[j]) !in Image(xs[..j], h);
      assert Image(xs[..j], h)[i] == h(xs[i]);
    }
  }

  lemma FirstSeenCovers<T, K>(xs: seq<T>, h: T -> K, i: nat)
    requires i < |xs|
    ensures h(xs[i]) in Image(FirstSeen(xs, h), h)
  {
    var idx := FirstSeenIndices(xs, h);
    FirstOccurrence(xs, h, i);
    var j :| 0 <= j <= i && h(xs[j]) == h(xs[i]) && j in idx;
    var k :| 0 <= k < |idx| && idx[k] == j;
    assert Image(FirstSeen(xs, h), h)[k] == h(xs[i]);
  }

  /** Every hash has a first occurrence, and that occurrence is kept. */
  lemma {:induction false} FirstOccurrence<T, K>(xs: seq<T>, h: T -> K, i: nat)
    requires i < |xs|
    ensures exists j :: 0 <= j <= i && h(xs[j]) == h(xs[i]) && j in FirstSeenIndices(xs, h)
    decreases i
  {
    var idx := FirstSeenIndices(xs, h);
    if i in idx {
      assert h(xs[i]) == h(xs[i]);
    } else {
      assert h(xs[i]) in Image(xs[..i], h);
      var j :| 0 <= j < i && Image(xs[..i], h)[j] == h(xs[i]);
      assert xs[..i][j] == xs[j];
      FirstOccurrence(xs, h, j);
    }
  }

  lemma FirstSeenLast<T, K>(xs: seq<T>, h: T -> K)
    requires |xs| > 0
    ensures var n := |xs| - 1;
      FirstSeen(xs, h) == FirstSeen(xs[..n], h) + (if h(xs[n]) in Image(xs[..n], h) then [] else [xs[n]])
  {
  }

  lemma ImageLast<T, K>(xs: seq<T>, h: T -> K)
    requires |xs| > 0
    ensures Image(xs, h) == Image(xs[..|xs| - 1], h) + [h(xs[|xs| - 1])]
  {
  }

  /** A dedupe loop over `xs`: an item whose hash is not registered yet is
      yielded and its hash registered. Returns the yielded items and the
      registered hashes. */
  function DedupeLoop<T, K(==)>(xs: seq<T>, h: T -> K): (seq<T>, set<K>)
    decreases |xs|
  {
    if |xs| == 0 then ([], {})
    else
      var (kept, seen) := DedupeLoop(xs[..|xs| - 1], h);
      var x := xs[|xs| - 1];
      if h(x) !in seen then (kept + [x], seen + {h(x)}) else (kept, seen)
  }

  /** When no hash repeats, first-seen deduplication keeps everything. */
  lemma FirstSeenAllNew<T, K>(xs: seq<T>, h: T -> K)
    ensures NoDup(Image(xs, h)) ==> FirstSeen(xs, h) == xs
  {
    DedupeLoopIsFirstSeen(xs, h);
    DedupeLoopAllNew(xs, h);
  }

  lemma {:induction false} DedupeLoopAllNew<T, K>(xs: seq<T>, h: T -> K)
    ensures NoDup(Image(xs, h)) ==> DedupeLoop(xs, h).0 == xs
    decreases |xs|
  {
    if |xs| > 0 && NoDup(Image(xs, h)) {
      var n := |xs| - 1;
      var prefix := xs[..n];
      var img, pimg := Image(xs, h), Image(prefix, h);
      assert forall j :: 0 <= j < n ==> pimg[j] == img[j];
      assert NoDup(pimg);
      DedupeLoopAllNew(prefix, h);
      assert h(xs[n]) !in pimg by {
        assert img[n] == h(xs[n]);
        assert forall j :: 0 <= j < n ==> img[j] != img[n];
      }
      SeenIsImage(prefix, h, h(xs[n]));
      assert prefix + [xs[n]] == xs;
    }
  }

  function Id(k: string): string {
    k
  }

  lemma ImageId(xs: seq<string>)
    ensures Image(xs, Id) == xs
  {
  }

  /** The keys of a dict built by inserting `names` in order: each name once, at
      its first occurrence. */
  function UniqueInOrder(names: seq<string>): (ks: seq<string>)
    ensures NoDup(ks)
    ensures forall k :: k in ks <==> k in names
    ensures NoDup(names) ==> ks == names
  {
    UniqueNames(names);
    FirstSeen(names, Id)
  }

  lemma UniqueNames(names: seq<string>)
    ensures NoDup(FirstSeen(names, Id))
    ensures forall k :: k in FirstSeen(names, Id) <==> k in names
    ensures NoDup(names) ==> FirstSeen(names, Id) == names
  {
    var ks := FirstSeen(names, Id);
    FirstSeenSpec(names, Id);
    ImageId(ks);
    ImageId(names);
    FirstSeenAllNew(names, Id);
    forall k | k in names
      ensures k in ks
    {
      var i :| 0 <= i < |names| && names[i] == k;
      assert Id(names[i]) in Image(ks, Id);
    }
  }

  lemma ImageAppend<T, K>(a: seq<T>, b: seq<T>, f: T -> K)
    ensures Image(a + b, f) == Image(a, f) + Image(b, f)
  {
  }

  /** The loop registers exactly the hashes met so far. */
  lemma {:induction false} DedupeLoopSeen<T, K>(xs: seq<T>, h: T -> K)
    ensures forall k :: k in DedupeLoop(xs, h).1 <==> k in Image(xs, h)
    decreases |xs|
  {
    if |xs| > 0 {
      var n := |xs| - 1;
      DedupeLoopSeen(xs[..n], h);
      ImageLast(xs, h);
      var seen := DedupeLoop(xs, h).1;
      assert seen == DedupeLoop(xs[..n], h).1 + {h(xs[n])};
      forall k
        ensures k in seen <==> k in Image(xs, h)
      {
        assert k in Image(xs, h) <==> k in Image(xs[..n], h) || k == h(xs[n]);
      }
    }
  }

  lemma SeenIsImage<T, K>(xs: seq<T>, h: T -> K, y: K)
    ensures y in DedupeLoop(xs, h).1 <==> y in Image(xs, h)
  {
    DedupeLoopSeen(xs, h);
  }

  /** The loop yields the first-seen deduplication. */
  lemma {:induction false} DedupeLoopIsFirstSeen<T, K>(xs: seq<T>, h: T -> K)
    ensures DedupeLoop(xs, h).0 == FirstSeen(xs, h)
    decreases |xs|
  {
    if |xs| > 0 {
      var n := |xs| - 1;
      var prefix, x := xs[..n], xs[n];
      DedupeLoopIsFirstSeen(prefix, h);
      DedupeLoopSeen(prefix, h);
      FirstSeenLast(xs, h);
      SeenIsImage(prefix, h, h(x));
    }
  }

  lemma ImageRemoveAt<T, K>(b: seq<T>, j: nat, f: T -> K)
    requires j < |b|
    ensures multiset(Image(b, f)) == multiset(Image(RemoveAt(b, j), f)) + multiset{f(b[j])}
  {
    var pre, post := b[..j], b[j + 1..];
    assert b == pre + [b[j]] + post;
    ImageAppend(pre + [b[j]], post, f);
    ImageAppend(pre, [b[j]], f);
    ImageAppend(pre, post, f);
  }

  /** Mapping a permutation gives a permutation. */
  lemma {:induction false} ImagePermutation<T, K>(a: seq<T>, b: seq<T>, f: T -> K)
    requires multiset(a) == multiset(b)
    ensures multiset(Image(a, f)) == multiset(Image(b, f))
    decreases |a|
  {
    if |a| == 0 {
      assert |b| == |multiset(b)| == 0;
    } else {
      var n := |a| - 1;
      ImageRemoveAt(a, n, f);
      assert a[n] in multiset(b);
      var j :| 0 <= j < |b| && b[j] == a[n];
      ImagePermutation(RemoveAt(a, n), RemoveAt(b, j), f);
      ImageRemoveAt(b, j, f);
    }
  }

  /** Python's `^` on the 64-bit hash values (kept behind a function so that the
      bit-vector theory stays out of the sequence proofs). */
  function Xor(a: bv64, b: bv64): bv64 {
    a ^ b
  }

  lemma XorLaws(a: bv64, b: bv64, c: bv64)
    ensures Xor(a, b) == Xor(b, a)
    ensures Xor(Xor(a, b), c) == Xor(a, Xor(b, c))
    ensures Xor(Xor(a, b), b) == a
    ensures Xor(a, 0) == a && Xor(0, a) == a
  {
    XorCommutes(a, b);
    XorAssociates(a, b, c);
    XorSelfInverse(a, b);
    XorCommutes(a, 0);
  }

  lemma XorCommutes(a: bv64, b: bv64)
    ensures Xor(a, b) == Xor(b, a)
  {
    assert a ^ b == b ^ a;
  }

  lemma XorAssociates(a: bv64, b: bv64, c: bv64)
    ensures Xor(Xor(a, b), c) == Xor(a, Xor(b, c))
  {
    assert (a ^ b) ^ c == a ^ (b ^ c);
  }

  lemma XorSelfInverse(a: bv64, b: bv64)
    ensures Xor(Xor(a, b), b) == a
    ensures Xor(a, 0) == a
  {
    assert (a ^ b) ^ b == a;
    assert a ^ 0 == a;
  }

  /** The default seed of the `__hash__` methods (the duration of the Apollo 11
      mission: 8 days, 3 hours, 18 minutes, 35 seconds). */
  const HASH_SEED: bv64 := 703115

  /** `functools.reduce(lambda x, y: x ^ y, hs, seed)` */
  function XorFold(seed: bv64, hs: seq<bv64>): bv64 {
    if |hs| == 0 then seed else Xor(XorFold(seed, hs[..|hs| - 1]), hs[|hs| - 1])
  }

  lemma {:induction false} XorFoldAppend(seed: bv64, a: seq<bv64>, b: seq<bv64>)
    ensures XorFold(seed, a + b) == Xor(XorFold(seed, a), XorFold(0, b))
    decreases |b|
  {
    if |b| == 0 {
      assert a + b == a;
      XorLaws(XorFold(seed, a), 0, 0);
    } else {
      var n := |b| - 1;
      assert (a + b)[..|a + b| - 1] == a + b[..n];
      XorFoldAppend(seed, a, b[..n]);
      XorLaws(XorFold(seed, a), XorFold(0, b[..n]), b[n]);
    }
  }

  /** The fold sees only the multiset of its inputs: any permutation folds to the same value. */
  lemma {:induction false} XorFoldPermutation(seed: bv64, a: seq<bv64>, b: seq<bv64>)
    requires multiset(a) == multiset(b)
    ensures XorFold(seed, a) == XorFold(seed, b)
    decreases |a|
  {
    if |a| == 0 {
      assert |b| == |multiset(b)| == 0;
    } else {
      var n := |a| - 1;
      var x := a[n];
      assert a == a[..n] + [x];
      assert multiset(a[..n]) == multiset(a) - multiset{x};
      assert x in multiset(b);
      var j :| 0 <= j < |b| && b[j] == x;
      var rest := RemoveAt(b, j);
      XorFoldPermutation(seed, a[..n], rest);
      XorFoldRemoveAt(seed, b, j);
    }
  }

  function RemoveAt<T>(s: seq<T>, j: nat): (r: seq<T>)
    requires j < |s|
    ensures |r| == |s| - 1
    ensures multiset(r) == multiset(s) - multiset{s[j]}
  {
    assert s == s[..j] + [s[j]] + s[j + 1..];
    s[..j] + s[j + 1..]
  }

  lemma XorFoldRemoveAt(seed: bv64, b: seq<bv64>, j: nat)
    requires j < |b|
    ensures XorFold(seed, b) == Xor(XorFold(seed, RemoveAt(b, j)), b[j])
  {
    var x := b[j];
    var pre, post := b[..j], b[j + 1..];
    assert b == (pre + [x]) + post;
    XorFoldAppend(seed, pre + [x], post);
    assert (pre + [x])[..|pre|] == pre;
    var p := XorFold(seed, pre);
    var q := XorFold(0, post);
    XorFoldAppend(seed, pre, post);
    XorLaws(p, x, q);
    XorLaws(p, q, x);
    XorLaws(x, q, 0);
  }

  /** An item hashed twice cancels out of the fold. */
  lemma XorFoldCancel(seed: bv64, a: seq<bv64>, x: bv64)
    ensures XorFold(seed, a + [x, x]) == XorFold(seed, a)
  {
    assert (a + [x, x])[..|a| + 1] == a + [x];
    assert (a + [x])[..|a|] == a;
    XorLaws(XorFold(seed, a), x, x);
  }
}
