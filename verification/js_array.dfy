/** The `Array.prototype` operations the dashboard's state layer relies on:
    `filter`, `slice` and `sort` with a numeric comparator, the latter stable
    as ECMAScript 2019 and later require. Arrays are modelled as sequences. */
module JsArray {

  function Min(a: int, b: int): int { if a <= b then a else b }

  /** `a` is an order-preserving subsequence of `b`: `a` is `b` with some
      positions dropped. */
  ghost predicate Subseq<T>(a: seq<T>, b: seq<T>)
    decreases |b|
  {
    if |a| == 0 then true
    else if |b| == 0 then false
    else (a[0] == b[0] && Subseq(a[1..], b[1..])) || Subseq(a, b[1..])
  }

  lemma {:induction false} SubseqRefl<T>(a: seq<T>)
    ensures Subseq(a, a)
    decreases |a|
  {
    if |a| > 0 {
      SubseqRefl(a[1..]);
    }
  }

  /** Putting an element in front of the longer sequence keeps a subsequence. */
  lemma SubseqCons<T>(x: T, a: seq<T>, b: seq<T>)
    requires Subseq(a, b)
    ensures Subseq(a, [x] + b)
  {
    if |a| > 0 {
      assert ([x] + b)[1..] == b;
    }
  }

  /** A subsequence takes each element at most as often as it occurs. */
  lemma {:induction false} SubseqMultiset<T>(a: seq<T>, b: seq<T>)
    requires Subseq(a, b)
    ensures multiset(a) <= multiset(b)
    decreases |b|
  {
    if |a| > 0 {
      assert b == [b[0]] + b[1..];
      if a[0] == b[0] && Subseq(a[1..], b[1..]) {
        SubseqMultiset(a[1..], b[1..]);
        assert a == [a[0]] + a[1..];
      } else {
        SubseqMultiset(a, b[1..]);
      }
    }
  }

  /** `Array.prototype.filter`: the elements `keep` accepts, in order. */
  function Filter<T(!new)>(s: seq<T>, keep: T -> bool): (r: seq<T>)
    ensures Subseq(r, s)
    ensures forall x :: multiset(r)[x] == if keep(x) then multiset(s)[x] else 0
    ensures forall x :: x in r <==> x in s && keep(x)
    decreases |s|
  {
    if |s| == 0 then []
    else
      assert s == [s[0]] + s[1..];
      if keep(s[0]) then [s[0]] + Filter(s[1..], keep) else Filter(s[1..], keep)
  }

  lemma FilterCons<T(!new)>(x: T, s: seq<T>, keep: T -> bool)
    ensures Filter([x] + s, keep) == if keep(x) then [x] + Filter(s, keep) else Filter(s, keep)
  {
    assert ([x] + s)[1..] == s;
  }

  /** The contract of `Filter` pins its result down: the only subsequence of
      `s` holding every accepted element as often as `s` does, and no other
      element, is `Filter(s, keep)`. */
  lemma {:induction false} FilterUnique<T(!new)>(s: seq<T>, keep: T -> bool, r: seq<T>)
    requires Subseq(r, s)
    requires forall x :: multiset(r)[x] == if keep(x) then multiset(s)[x] else 0
    ensures r == Filter(s, keep)
    decreases |s|
  {
    if |s| == 0 {
      assert |r| == 0;
    } else {
      var x, t := s[0], s[1..];
      assert s == [x] + t;
      if keep(x) {
        assert multiset(r)[x] > 0;
        assert |r| > 0;
        assert r == [r[0]] + r[1..];
        if r[0] == x && Subseq(r[1..], t) {
          forall y ensures multiset(r[1..])[y] == if keep(y) then multiset(t)[y] else 0 {
            assert multiset(r)[y] == multiset([r[0]])[y] + multiset(r[1..])[y];
          }
          FilterUnique(t, keep, r[1..]);
        } else {
          SubseqMultiset(r, t);
          assert false;
        }
      } else if |r| == 0 {
        assert multiset(s) == multiset([x]) + multiset(t);
        FilterUnique(t, keep, r);
      } else {
        assert r[0] in r;
        assert r[0] != x;
        forall y ensures multiset(r)[y] == if keep(y) then multiset(t)[y] else 0 {
          if y != x {
            assert multiset(s)[y] == multiset(t)[y];
          }
        }
        FilterUnique(t, keep, r);
      }
    }
  }

  /** Filtering keeps nothing it rejects, so a second pass changes nothing. */
  lemma {:induction false} FilterIdempotent<T(!new)>(s: seq<T>, keep: T -> bool)
    ensures Filter(Filter(s, keep), keep) == Filter(s, keep)
    decreases |s|
  {
    if |s| > 0 {
      FilterIdempotent(s[1..], keep);
      if keep(s[0]) {
        FilterCons(s[0], Filter(s[1..], keep), keep);
      }
    }
  }

  /** A filter that accepts every element is the identity. */
  lemma {:induction false} FilterAll<T(!new)>(s: seq<T>, keep: T -> bool)
    requires forall x :: x in s ==> keep(x)
    ensures Filter(s, keep) == s
    decreases |s|
  {
    if |s| > 0 {
      FilterAll(s[1..], keep);
    }
  }

  /** Filtering is monotone for the subsequence order. */
  lemma {:induction false} FilterMonotone<T(!new)>(a: seq<T>, b: seq<T>, keep: T -> bool)
    requires Subseq(a, b)
    ensures Subseq(Filter(a, keep), Filter(b, keep))
    decreases |b|
  {
    if |a| > 0 {
      if a[0] == b[0] && Subseq(a[1..], b[1..]) {
        FilterMonotone(a[1..], b[1..], keep);
        if keep(a[0]) {
          var fa, fb := Filter(a[1..], keep), Filter(b[1..], keep);
          assert Filter(a, keep) == [a[0]] + fa;
          assert Filter(b, keep) == [b[0]] + fb;
          assert ([a[0]] + fa)[1..] == fa;
          assert ([b[0]] + fb)[1..] == fb;
        }
      } else {
        FilterMonotone(a, b[1..], keep);
        if keep(b[0]) {
          SubseqCons(b[0], Filter(a, keep), Filter(b[1..], keep));
        }
      }
    }
  }

  /** Filtering distributes over concatenation. */
  lemma {:induction false} FilterConcat<T(!new)>(a: seq<T>, b: seq<T>, keep: T -> bool)
    ensures Filter(a + b, keep) == Filter(a, keep) + Filter(b, keep)
    decreases |a|
  {
    if |a| == 0 {
      assert a + b == b;
    } else {
      var x, t := a[0], a[1..];
      assert (a + b)[0] == x;
      assert (a + b)[1..] == t + b;
      FilterConcat(t, b, keep);
      if keep(x) {
        var ft, fb := Filter(t, keep), Filter(b, keep);
        assert [x] + (ft + fb) == ([x] + ft) + fb;
      }
    }
  }

  /** Filtering a prefix yields a prefix of the filtered whole. */
  lemma {:induction false} FilterPrefix<T(!new)>(s: seq<T>, k: nat, keep: T -> bool)
    requires k <= |s|
    ensures Filter(s[..k], keep) <= Filter(s, keep)
    decreases |s|
  {
    if k > 0 {
      assert s[..k][1..] == s[1..][..k - 1];
      FilterPrefix(s[1..], k - 1, keep);
    }
  }

  /** When exactly one position of `s` passes `keep`, `filter` returns just
      the element there. */
  lemma {:induction false} FilterSingle<T(!new)>(s: seq<T>, keep: T -> bool, k: nat)
    requires k < |s| && keep(s[k])
    requires forall i :: 0 <= i < |s| && i != k ==> !keep(s[i])
    ensures Filter(s, keep) == [s[k]]
    decreases |s|
  {
    if k > 0 {
      FilterSingle(s[1..], keep, k - 1);
    }
  }

  /** Sequences that filter alike still do so behind the same head. */
  lemma FilterSameHead<T(!new)>(x: T, a: seq<T>, b: seq<T>, keep: T -> bool)
    requires Filter(a, keep) == Filter(b, keep)
    ensures Filter([x] + a, keep) == Filter([x] + b, keep)
  {
    FilterCons(x, a, keep);
    FilterCons(x, b, keep);
  }

  /** Index normalisation of `Array.prototype.slice`: a negative position
      counts back from the end, and the result is clamped to `[0, len]`. */
  function RelativeIndex(i: int, len: nat): (k: nat)
    ensures k <= len
    ensures 0 <= i ==> k == Min(i, len)
  {
    if i < 0 then (if len + i < 0 then 0 else len + i)
    else if i > len then len
    else i
  }

  /** `Array.prototype.slice(start, end)`. */
  function Slice<T>(s: seq<T>, start: int, end: int): (r: seq<T>)
    ensures |r| == if RelativeIndex(start, |s|) < RelativeIndex(end, |s|) then RelativeIndex(end, |s|) - RelativeIndex(start, |s|) else 0
    ensures RelativeIndex(start, |s|) + |r| <= |s|
    ensures forall k :: 0 <= k < |r| ==> r[k] == s[RelativeIndex(start, |s|) + k]
    ensures 0 <= start <= end ==> r == s[Min(start, |s|)..Min(end, |s|)]
  {
    var from, to := RelativeIndex(start, |s|), RelativeIndex(end, |s|);
    if from < to then s[from..to] else []
  }

  /** Every key along `s` is at most the key before it. */
  ghost predicate SortedDescBy<T>(s: seq<T>, key: T -> int)
  {
    forall i, j :: 0 <= i < j < |s| ==> key(s[j]) <= key(s[i])
  }

  /** A prefix of a descending sequence is descending and draws on it. */
  lemma SortedPrefix<T>(s: seq<T>, key: T -> int, k: nat)
    requires SortedDescBy(s, key) && k <= |s|
    ensures SortedDescBy(s[..k], key)
    ensures multiset(s[..k]) <= multiset(s)
  {
    assert s == s[..k] + s[k..];
    assert multiset(s) == multiset(s[..k]) + multiset(s[k..]);
  }

  /** Accepts exactly the elements whose key is `c`. */
  function HasKey<T>(key: T -> int, c: int): T -> bool
  {
    x => key(x) == c
  }

  /** Inserts `x` into a sequence sorted by descending key, in front of every
      element whose key is not larger than its own. */
  function InsertDescBy<T>(x: T, t: seq<T>, key: T -> int): (r: seq<T>)
    requires SortedDescBy(t, key)
    ensures |r| == |t| + 1
    ensures forall k :: 0 <= k < |r| ==> r[k] == x || r[k] in t
    ensures SortedDescBy(r, key)
    ensures multiset(r) == multiset([x] + t)
    decreases |t|
  {
    if |t| == 0 || key(t[0]) <= key(x) then
      InsertAtHead(x, t, key);
      [x] + t
    else
      var rest := InsertDescBy(x, t[1..], key);
      InsertAfterHead(x, t, rest, key);
      [t[0]] + rest
  }

  /** `x` placed in front of a descending sequence whose head is no larger. */
  lemma InsertAtHead<T>(x: T, t: seq<T>, key: T -> int)
    requires SortedDescBy(t, key)
    requires |t| == 0 || key(t[0]) <= key(x)
    ensures SortedDescBy([x] + t, key)
  {
    forall k | 0 <= k < |t| ensures key(t[k]) <= key(x) {
      if k > 0 { assert key(t[k]) <= key(t[0]); }
    }
    SortedCons(x, t, key);
  }

  /** The head of `t` kept in front of `x` inserted into the tail. */
  lemma InsertAfterHead<T>(x: T, t: seq<T>, rest: seq<T>, key: T -> int)
    requires SortedDescBy(t, key) && |t| > 0 && key(x) < key(t[0])
    requires forall k :: 0 <= k < |rest| ==> rest[k] == x || rest[k] in t[1..]
    requires SortedDescBy(rest, key)
    requires multiset(rest) == multiset([x] + t[1..])
    ensures forall k :: 0 <= k < |rest| + 1 ==> ([t[0]] + rest)[k] == x || ([t[0]] + rest)[k] in t
    ensures SortedDescBy([t[0]] + rest, key)
    ensures multiset([t[0]] + rest) == multiset([x] + t)
  {
    assert t == [t[0]] + t[1..];
    HeadBoundsRest(x, t, rest, key);
    SortedCons(t[0], rest, key);
    forall k | 0 <= k < |rest| + 1 ensures ([t[0]] + rest)[k] == x || ([t[0]] + rest)[k] in t {
      if k > 0 { assert ([t[0]] + rest)[k] == rest[k - 1]; }
    }
  }

  /** In a descending sequence the head's key bounds every later key, and so
      every key of a sequence drawn from the tail and a smaller `x`. */
  lemma HeadBoundsRest<T>(x: T, t: seq<T>, rest: seq<T>, key: T -> int)
    requires SortedDescBy(t, key) && |t| > 0 && key(x) < key(t[0])
    requires forall k :: 0 <= k < |rest| ==> rest[k] == x || rest[k] in t[1..]
    ensures forall k :: 0 <= k < |rest| ==> key(rest[k]) <= key(t[0])
  {
    forall k | 0 <= k < |rest| ensures key(rest[k]) <= key(t[0]) {
      if rest[k] != x {
        var j :| 0 <= j < |t[1..]| && t[1..][j] == rest[k];
        assert t[j + 1] == rest[k];
      }
    }
  }

  /** A head no smaller than every key of a descending sequence keeps it
      descending. */
  lemma SortedCons<T>(y: T, rest: seq<T>, key: T -> int)
    requires SortedDescBy(rest, key)
    requires forall k :: 0 <= k < |rest| ==> key(rest[k]) <= key(y)
    ensures SortedDescBy([y] + rest, key)
  {
    var r := [y] + rest;
    forall i, j | 0 <= i < j < |r| ensures key(r[j]) <= key(r[i]) {
      assert r[j] == rest[j - 1];
      if i > 0 { assert r[i] == rest[i - 1]; }
    }
  }

  /** `[...s].sort((a, b) => key(b) - key(a))`: a stable sort by descending
      key, done on a copy so that `s` itself keeps its order. */
  function SortDescBy<T>(s: seq<T>, key: T -> int): (r: seq<T>)
    ensures SortedDescBy(r, key)
    ensures multiset(r) == multiset(s)
    ensures |r| == |s|
    decreases |s|
  {
    if |s| == 0 then []
    else
      assert s == [s[0]] + s[1..];
      InsertDescBy(s[0], SortDescBy(s[1..], key), key)
  }

  /** Sorting a sequence that is already in descending order changes nothing. */
  lemma {:induction false} SortSortedIsIdentity<T>(s: seq<T>, key: T -> int)
    requires SortedDescBy(s, key)
    ensures SortDescBy(s, key) == s
    decreases |s|
  {
    if |s| > 0 {
      assert SortedDescBy(s[1..], key);
      SortSortedIsIdentity(s[1..], key);
      assert s == [s[0]] + s[1..];
    }
  }

  lemma {:induction false} InsertStable<T(!new)>(x: T, t: seq<T>, key: T -> int, c: int)
    requires SortedDescBy(t, key)
    ensures Filter(InsertDescBy(x, t, key), HasKey(key, c)) == Filter([x] + t, HasKey(key, c))
    decreases |t|
  {
    var p := HasKey(key, c);
    if !(|t| == 0 || key(t[0]) <= key(x)) {
      var t1 := t[1..];
      var rest := InsertDescBy(x, t1, key);
      assert InsertDescBy(x, t, key) == [t[0]] + rest;
      InsertStable(x, t1, key, c);
      FilterCons(t[0], rest, p);
      FilterCons(x, t1, p);
      FilterCons(x, t, p);
      if p(t[0]) {
        assert !p(x);
        assert Filter(t, p) == [t[0]] + Filter(t1, p);
      } else {
        assert Filter(t, p) == Filter(t1, p);
      }
    }
  }

  /** Stability: among elements with equal keys the sort keeps input order. */
  lemma {:induction false} SortStable<T(!new)>(s: seq<T>, key: T -> int, c: int)
    ensures Filter(SortDescBy(s, key), HasKey(key, c)) == Filter(s, HasKey(key, c))
    decreases |s|
  {
    if |s| > 0 {
      var p := HasKey(key, c);
      var sorted := SortDescBy(s[1..], key);
      calc {
        Filter(SortDescBy(s, key), p);
        Filter(InsertDescBy(s[0], sorted, key), p);
        { InsertStable(s[0], sorted, key, c); }
        Filter([s[0]] + sorted, p);
        { SortStable(s[1..], key, c); FilterSameHead(s[0], sorted, s[1..], p); }
        Filter([s[0]] + s[1..], p);
        { assert s == [s[0]] + s[1..]; }
        Filter(s, p);
      }
    }
  }

}
