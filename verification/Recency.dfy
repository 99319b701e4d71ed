/** Keeping the most recent elements of a sequence, by key. */
module Recency {
  import opened Wrappers

  predicate HasKey<T, K(==)>(s: seq<T>, key: T -> Option<K>, k: K) {
    exists i :: 0 <= i < |s| && key(s[i]) == Some(k)
  }

  /** The elements of `s` that have a key and are the last with it, in order. */
  function Latest<T, K(==)>(s: seq<T>, key: T -> Option<K>): seq<T> {
    if s == [] then []
    else if key(s[0]).None? || HasKey(s[1..], key, key(s[0]).value) then Latest(s[1..], key)
    else [s[0]] + Latest(s[1..], key)
  }

  function DropKey<T, K(==)>(s: seq<T>, key: T -> Option<K>, k: K): seq<T> {
    if s == [] then []
    else if key(s[0]) == Some(k) then DropKey(s[1..], key, k)
    else [s[0]] + DropKey(s[1..], key, k)
  }

  /** Every element has a key, and no two share one. */
  predicate DistinctKeys<T, K(==)>(s: seq<T>, key: T -> Option<K>) {
    && (forall i :: 0 <= i < |s| ==> key(s[i]).Some?)
    && (forall i, j :: 0 <= i < j < |s| ==> key(s[i]) != key(s[j]))
  }

  function LastN<T>(s: seq<T>, n: nat): seq<T> {
    if |s| <= n then s else s[|s| - n..]
  }

  lemma {:induction false} HasKeyCons<T, K>(s: seq<T>, key: T -> Option<K>, k: K)
    requires s != []
    ensures HasKey(s, key, k) <==> key(s[0]) == Some(k) || HasKey(s[1..], key, k)
  {
    if HasKey(s, key, k) {
      var i :| 0 <= i < |s| && key(s[i]) == Some(k);
      assert i > 0 ==> s[1..][i - 1] == s[i];
    }
    if HasKey(s[1..], key, k) {
      var i :| 0 <= i < |s[1..]| && key(s[1..][i]) == Some(k);
      assert s[i + 1] == s[1..][i];
    }
  }

  lemma {:induction false} DropAbsentKey<T, K>(s: seq<T>, key: T -> Option<K>, k: K)
    requires !HasKey(s, key, k)
    ensures DropKey(s, key, k) == s
  {
    if s != [] {
      HasKeyCons(s, key, k);
      DropAbsentKey(s[1..], key, k);
    }
  }

  lemma {:induction false} DropKeyAppend<T, K>(a: seq<T>, b: seq<T>, key: T -> Option<K>, k: K)
    ensures DropKey(a + b, key, k) == DropKey(a, key, k) + DropKey(b, key, k)
  {
    if a == [] {
      assert a + b == b;
    } else {
      assert (a + b)[1..] == a[1..] + b;
      DropKeyAppend(a[1..], b, key, k);
    }
  }

  /** Adding an element at the end moves its key there. */
  lemma {:induction false} LatestSnoc<T, K>(s: seq<T>, key: T -> Option<K>, x: T)
    ensures Latest(s + [x], key) ==
      if key(x).None? then Latest(s, key) else DropKey(Latest(s, key), key, key(x).value) + [x]
  {
    if s == [] {
      assert s + [x] == [x] && [x][1..] == [];
    } else {
      var rest := s[1..];
      assert (s + [x])[1..] == rest + [x];
      LatestSnoc(rest, key, x);
      if key(s[0]).Some? {
        var k := key(s[0]).value;
        assert HasKey(rest + [x], key, k) <==> HasKey(rest, key, k) || key(x) == Some(k) by {
          if HasKey(rest, key, k) {
            var i :| 0 <= i < |rest| && key(rest[i]) == Some(k);
            assert (rest + [x])[i] == rest[i];
          }
          assert (rest + [x])[|rest|] == x;
        }
        if !HasKey(rest, key, k) {
          assert Latest(s, key) == [s[0]] + Latest(rest, key);
          if key(x).Some? {
            assert ([s[0]] + Latest(rest, key))[1..] == Latest(rest, key);
          }
        }
      }
    }
  }

  predicate Increasing(at: seq<nat>) {
    forall i, j :: 0 <= i < j < |at| ==> at[i] < at[j]
  }

  /** `kept` is the elements of `s` at the strictly increasing positions `at`. */
  predicate Selects<T(==)>(s: seq<T>, kept: seq<T>, at: seq<nat>) {
    |at| == |kept| && Increasing(at) && forall i :: 0 <= i < |at| ==> at[i] < |s| && kept[i] == s[at[i]]
  }

  lemma {:induction false} SelectsTail<T>(s: seq<T>, kept: seq<T>, at: seq<nat>, more: seq<nat>)
    requires s != [] && Selects(s[1..], kept, at)
    requires |more| == |at| && forall i :: 0 <= i < |at| ==> more[i] == at[i] + 1
    ensures Selects(s, kept, more)
    ensures Selects(s, [s[0]] + kept, [0] + more)
  {
  }

  /** Every key of `s` survives exactly once. */
  lemma {:induction false} LatestKeys<T, K>(s: seq<T>, key: T -> Option<K>)
    ensures DistinctKeys(Latest(s, key), key)
    ensures forall k :: HasKey(Latest(s, key), key, k) <==> HasKey(s, key, k)
  {
    if s != [] {
      var rest, kept := s[1..], Latest(s, key);
      LatestKeys(rest, key);
      forall k ensures HasKey(kept, key, k) <==> HasKey(s, key, k) {
        HasKeyCons(s, key, k);
        if kept != Latest(rest, key) {
          assert kept[1..] == Latest(rest, key);
          HasKeyCons(kept, key, k);
        }
      }
      if kept != Latest(rest, key) {
        assert !HasKey(Latest(rest, key), key, key(s[0]).value);
        forall j | 0 < j < |kept| ensures key(kept[0]) != key(kept[j]) {
          assert kept[j] == Latest(rest, key)[j - 1] && kept[0] == s[0];
        }
      }
    }
  }

  /** What survives keeps its order, and nothing after it has its key. */
  lemma {:induction false} LatestPositions<T, K>(s: seq<T>, key: T -> Option<K>) returns (at: seq<nat>)
    ensures Selects(s, Latest(s, key), at)
    ensures forall i :: 0 <= i < |at| ==> key(s[at[i]]).Some? && !HasKey(s[at[i] + 1..], key, key(s[at[i]]).value)
  {
    if s == [] {
      at := [];
    } else {
      var rest := LatestPositions(s[1..], key);
      at := seq(|rest|, i requires 0 <= i < |rest| => rest[i] + 1);
      SelectsTail(s, Latest(s[1..], key), rest, at);
      forall i | 0 <= i < |at| ensures s[1..][rest[i]] == s[at[i]] && s[1..][rest[i] + 1..] == s[at[i] + 1..] {}
      if key(s[0]).Some? && !HasKey(s[1..], key, key(s[0]).value) {
        at := [0] + at;
      }
    }
  }

  /** A sequence with distinct keys is its own `Latest`. */
  lemma {:induction false} LatestOfDistinct<T, K>(s: seq<T>, key: T -> Option<K>)
    requires DistinctKeys(s, key)
    ensures Latest(s, key) == s
  {
    if s != [] {
      LatestOfDistinct(s[1..], key);
      forall i | 0 <= i < |s[1..]| ensures key(s[1..][i]) != key(s[0]) {
        assert s[i + 1] == s[1..][i];
      }
    }
  }

  lemma {:induction false} LastNSuffix<T>(a: seq<T>, b: seq<T>, n: nat)
    requires |b| >= n
    ensures LastN(a + b, n) == LastN(b, n)
  {
  }

  /** Moving a key to the end and keeping the last `n` only looks at the last `n`. */
  lemma {:induction false} BoundedMove<T, K>(s: seq<T>, key: T -> Option<K>, x: T, n: nat)
    requires DistinctKeys(s, key) && key(x).Some?
    ensures LastN(DropKey(s, key, key(x).value) + [x], n) == LastN(DropKey(LastN(s, n), key, key(x).value) + [x], n)
  {
    if |s| > n {
      var k := key(x).value;
      var earlier, recent := s[..|s| - n], s[|s| - n..];
      assert s == earlier + recent;
      DropKeyAppend(earlier, recent, key, k);
      assert |DropKey(recent, key, k)| + 1 >= n by {
        if HasKey(recent, key, k) {
          DropOnce(recent, key, k);
        } else {
          DropAbsentKey(recent, key, k);
        }
      }
      var d := DropKey(recent, key, k) + [x];
      assert DropKey(s, key, k) + [x] == DropKey(earlier, key, k) + d;
      LastNSuffix(DropKey(earlier, key, k), d, n);
    }
  }

  lemma {:induction false} DropOnce<T, K>(s: seq<T>, key: T -> Option<K>, k: K)
    requires DistinctKeys(s, key) && HasKey(s, key, k)
    ensures |DropKey(s, key, k)| == |s| - 1
  {
    HasKeyCons(s, key, k);
    if key(s[0]) == Some(k) {
      forall i | 0 <= i < |s[1..]| ensures key(s[1..][i]) != Some(k) {
        assert s[i + 1] == s[1..][i];
      }
      DropAbsentKey(s[1..], key, k);
    } else {
      DropOnce(s[1..], key, k);
    }
  }

  // ----- at most `n` per code

  function Count<T, K(==)>(s: seq<T>, code: T -> K, k: K): nat {
    if s == [] then 0 else (if code(s[0]) == k then 1 else 0) + Count(s[1..], code, k)
  }

  /** The elements of `s` with fewer than `n` later ones of the same code, in order. */
  function RecentPerCode<T, K(==)>(s: seq<T>, code: T -> K, n: nat): seq<T> {
    if s == [] then []
    else if Count(s[1..], code, code(s[0])) >= n then RecentPerCode(s[1..], code, n)
    else [s[0]] + RecentPerCode(s[1..], code, n)
  }

  function WithCode<T, K(==)>(s: seq<T>, code: T -> K, k: K): seq<T> {
    if s == [] then []
    else if code(s[0]) == k then [s[0]] + WithCode(s[1..], code, k)
    else WithCode(s[1..], code, k)
  }

  lemma {:induction false} CountAppend<T, K>(a: seq<T>, b: seq<T>, code: T -> K, k: K)
    ensures Count(a + b, code, k) == Count(a, code, k) + Count(b, code, k)
  {
    if a == [] {
      assert a + b == b;
    } else {
      assert (a + b)[1..] == a[1..] + b;
      CountAppend(a[1..], b, code, k);
    }
  }

  lemma {:induction false} WithCodeCounts<T, K>(s: seq<T>, code: T -> K, k: K)
    ensures |WithCode(s, code, k)| == Count(s, code, k)
  {
    if s != [] {
      WithCodeCounts(s[1..], code, k);
    }
  }

  /** Of each code exactly the last `n` entries are kept. */
  lemma {:induction false} RecentIsLastPerCode<T, K>(s: seq<T>, code: T -> K, n: nat, k: K)
    ensures WithCode(RecentPerCode(s, code, n), code, k) == LastN(WithCode(s, code, k), n)
  {
    if s != [] {
      var rest, kept := s[1..], RecentPerCode(s, code, n);
      RecentIsLastPerCode(rest, code, n, k);
      WithCodeCounts(rest, code, k);
      if kept != RecentPerCode(rest, code, n) {
        assert kept[1..] == RecentPerCode(rest, code, n);
      }
    }
  }

  lemma {:induction false} RecentCount<T, K>(s: seq<T>, code: T -> K, n: nat, k: K)
    ensures Count(RecentPerCode(s, code, n), code, k) == if Count(s, code, k) <= n then Count(s, code, k) else n
  {
    RecentIsLastPerCode(s, code, n, k);
    WithCodeCounts(s, code, k);
    WithCodeCounts(RecentPerCode(s, code, n), code, k);
  }

  /** An entry that trimming drops is dropped from the whole as well. */
  lemma {:induction false} DroppedStaysDropped<T, K>(a: seq<T>, b: seq<T>, code: T -> K, n: nat)
    requires a != [] && Count(a[1..], code, code(a[0])) >= n
    ensures RecentPerCode(a, code, n) == RecentPerCode(a[1..], code, n)
    ensures RecentPerCode(a + b, code, n) == RecentPerCode(a[1..] + b, code, n)
  {
    assert (a + b)[1..] == a[1..] + b;
    CountAppend(a[1..], b, code, code(a[0]));
  }

  /** An entry that trimming keeps comes before the same count of its code later, trimmed or not. */
  lemma {:induction false} KeptCountsTheSame<T, K>(rest: seq<T>, b: seq<T>, code: T -> K, n: nat, k: K)
    requires Count(rest, code, k) < n
    ensures Count(RecentPerCode(rest, code, n) + b, code, k) == Count(rest + b, code, k)
  {
    CountAppend(rest, b, code, k);
    CountAppend(RecentPerCode(rest, code, n), b, code, k);
    RecentCount(rest, code, n, k);
  }

  lemma {:induction false} HeadAppend<T>(x: T, s: seq<T>, b: seq<T>)
    ensures var all := [x] + s + b; all[0] == x && all[1..] == s + b
  {
  }

  /** Trimming early changes nothing once more entries arrive. */
  lemma {:induction false} RecentBatches<T, K>(a: seq<T>, b: seq<T>, code: T -> K, n: nat)
    ensures RecentPerCode(RecentPerCode(a, code, n) + b, code, n) == RecentPerCode(a + b, code, n)
  {
    if a == [] {
      assert a + b == b;
    } else {
      RecentBatches(a[1..], b, code, n);
      if Count(a[1..], code, code(a[0])) >= n {
        DroppedStaysDropped(a, b, code, n);
      } else {
        KeptCountsTheSame(a[1..], b, code, n, code(a[0]));
        HeadAppend(a[0], RecentPerCode(a[1..], code, n), b);
        HeadAppend(a[0], a[1..], b);
        assert [a[0]] + a[1..] == a;
      }
    }
  }

  /** What is kept keeps its order. */
  lemma {:induction false} RecentPositions<T, K>(s: seq<T>, code: T -> K, n: nat) returns (at: seq<nat>)
    ensures Selects(s, RecentPerCode(s, code, n), at)
  {
    if s == [] {
      at := [];
    } else {
      var rest := RecentPositions(s[1..], code, n);
      at := seq(|rest|, i requires 0 <= i < |rest| => rest[i] + 1);
      SelectsTail(s, RecentPerCode(s[1..], code, n), rest, at);
      if Count(s[1..], code, code(s[0])) < n {
        at := [0] + at;
      }
    }
  }

  // ----- reversal

  function Reversed<T>(s: seq<T>): seq<T> {
    if s == [] then [] else Reversed(s[1..]) + [s[0]]
  }

  lemma {:induction false} ReversedSnoc<T>(s: seq<T>, x: T)
    ensures Reversed(s + [x]) == [x] + Reversed(s)
  {
    if s == [] {
      assert s + [x] == [x];
    } else {
      assert (s + [x])[1..] == s[1..] + [x];
      ReversedSnoc(s[1..], x);
    }
  }
}
