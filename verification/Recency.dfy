/**
 What "least recently used" means: from the log of all touches, the distinct keys in the order of
 their last touch. A cache of n places should hold the last n of them.
 */
module Recency {

  type Key = string

  function Without(s: seq<Key>, x: Key): (r: seq<Key>)
    ensures |r| <= |s| && x !in r
    ensures forall y :: y in r <==> y in s && y != x
  {
    if s == [] then []
    else
      var rest := Without(s[..|s| - 1], x);
      var last := s[|s| - 1];
      assert s == s[..|s| - 1] + [last];
      if last == x then rest else rest + [last]
  }

  ghost predicate NoRepeats(s: seq<Key>) {
    forall i, j | 0 <= i < j < |s| :: s[i] != s[j]
  }

  /** The keys of the log, each once, in the order of their last touch. */
  function Recent(log: seq<Key>): seq<Key> {
    if log == [] then [] else Without(Recent(log[..|log| - 1]), log[|log| - 1]) + [log[|log| - 1]]
  }

  function LastN(s: seq<Key>, n: nat): seq<Key> {
    if |s| <= n then s else s[|s| - n..]
  }

  /** The index of the last touch of a key, -1 if there is none. */
  function LastTouch(log: seq<Key>, x: Key): (i: int)
    ensures -1 <= i < |log| && (i >= 0 ==> log[i] == x)
    ensures forall j | i < j < |log| :: log[j] != x
  {
    if log == [] then -1
    else if log[|log| - 1] == x then |log| - 1
    else LastTouch(log[..|log| - 1], x)
  }

  lemma RecentNext(log: seq<Key>, x: Key)
    ensures Recent(log + [x]) == Without(Recent(log), x) + [x]
  {
    assert (log + [x])[..|log|] == log;
  }

  lemma {:induction false} WithoutAbsent(s: seq<Key>, x: Key)
    requires x !in s
    ensures Without(s, x) == s
  {
    if s != [] {
      var rest, last := s[..|s| - 1], s[|s| - 1];
      WithoutAbsent(rest, x);
      assert s == rest + [last];
    }
  }

  lemma {:induction false} WithoutAppend(s: seq<Key>, t: seq<Key>, x: Key)
    ensures Without(s + t, x) == Without(s, x) + Without(t, x)
  {
    if t == [] {
      assert s + t == s;
    } else {
      var u := t[..|t| - 1];
      assert (s + t)[..|s + t| - 1] == s + u;
      WithoutAppend(s, u, x);
    }
  }

  lemma WithoutMiddle(a: seq<Key>, x: Key, b: seq<Key>)
    requires x !in a && x !in b
    ensures Without(a + [x] + b, x) == a + b
  {
    WithoutOne(x);
    hide Without;
    WithoutAppend(a + [x], b, x);
    WithoutAppend(a, [x], x);
    WithoutAbsent(a, x);
    WithoutAbsent(b, x);
  }

  lemma WithoutOne(x: Key)
    ensures Without([x], x) == []
  {
  }

  lemma SplitAt(s: seq<Key>, k: nat)
    requires k < |s|
    ensures s[..k] + [s[k]] + s[k + 1..] == s
  {
  }

  lemma StandsOnce(s: seq<Key>, k: nat)
    requires NoRepeats(s) && k < |s|
    ensures s[k] !in s[..k] && s[k] !in s[k + 1..]
  {
  }

  /** Taking out the one place where a key stands takes it out altogether. */
  lemma WithoutAt(s: seq<Key>, k: nat)
    requires NoRepeats(s) && k < |s|
    ensures Without(s, s[k]) == s[..k] + s[k + 1..]
  {
    StandsOnce(s, k);
    hide Without, NoRepeats;
    var x := s[k];
    var a, b := s[..k], s[k + 1..];
    WithoutMiddle(a, x, b);
    SplitAt(s, k);
  }

  lemma {:induction false} WithoutNoRepeats(s: seq<Key>, x: Key)
    requires NoRepeats(s)
    ensures NoRepeats(Without(s, x))
  {
    if s != [] {
      var rest := s[..|s| - 1];
      WithoutNoRepeats(rest, x);
      assert s[|s| - 1] !in rest;
    }
  }

  /** Each key of the log stands in the recency order exactly once. */
  lemma {:induction false} RecentIsSet(log: seq<Key>)
    ensures NoRepeats(Recent(log))
    ensures forall x :: x in Recent(log) <==> x in log
  {
    if log != [] {
      var rest, last := log[..|log| - 1], log[|log| - 1];
      RecentIsSet(rest);
      WithoutNoRepeats(Recent(rest), last);
      assert log == rest + [last];
    }
  }

  ghost predicate ByLastTouch(s: seq<Key>, log: seq<Key>) {
    forall i, j | 0 <= i < j < |s| :: LastTouch(log, s[i]) < LastTouch(log, s[j])
  }

  lemma {:induction false} WithoutByLastTouch(s: seq<Key>, log: seq<Key>, x: Key)
    requires ByLastTouch(s, log)
    ensures ByLastTouch(Without(s, x), log)
  {
    if s != [] {
      var rest, last := s[..|s| - 1], s[|s| - 1];
      WithoutByLastTouch(rest, log, x);
      forall y | y in Without(rest, x) ensures LastTouch(log, y) < LastTouch(log, last) {
        var i :| 0 <= i < |rest| && rest[i] == y;
        assert s[i] == y;
      }
    }
  }

  /** The recency order is the order of last touches. */
  lemma {:induction false} RecentIsByLastTouch(log: seq<Key>)
    ensures ByLastTouch(Recent(log), log)
  {
    if log != [] {
      var rest, last := log[..|log| - 1], log[|log| - 1];
      RecentIsByLastTouch(rest);
      WithoutByLastTouch(Recent(rest), rest, last);
      var s := Without(Recent(rest), last);
      assert Recent(log) == s + [last];
      forall i | 0 <= i < |s| ensures LastTouch(log, s[i]) == LastTouch(rest, s[i]) < |rest| {
        assert s[i] in s && s[i] != last;
      }
    }
  }

  lemma LastNFacts(s: seq<Key>, n: nat)
    ensures |LastN(s, n)| == if |s| <= n then |s| else n
    ensures s == s[..|s| - |LastN(s, n)|] + LastN(s, n)
    ensures NoRepeats(s) ==> NoRepeats(LastN(s, n))
  {
  }

  /** The last keys are `held` when they fill the places, or when there is nothing before them. */
  lemma LastNOf(front: seq<Key>, held: seq<Key>, n: nat)
    requires |held| == n || (front == [] && |held| <= n)
    ensures LastN(front + held, n) == held
  {
  }

  lemma HeldWithout(front: seq<Key>, held: seq<Key>, x: Key)
    requires NoRepeats(front + held) && x in held
    ensures Without(front + held, x) == front + Without(held, x)
    ensures |Without(held, x)| == |held| - 1
  {
    hide Without;
    var k :| 0 <= k < |held| && held[k] == x;
    assert (front + held)[|front| + k] == x;
    forall i | 0 <= i < |front| ensures front[i] != x {
      assert (front + held)[i] == front[i];
    }
    assert NoRepeats(held) by {
      forall i, j | 0 <= i < j < |held| ensures held[i] != held[j] {
        assert (front + held)[|front| + i] == held[i] && (front + held)[|front| + j] == held[j];
      }
    }
    WithoutAppend(front, held, x);
    WithoutAbsent(front, x);
    WithoutAt(held, k);
  }

  /** Touching one of the last n keys moves it to the end of them. */
  lemma TouchHeld(log: seq<Key>, n: nat, x: Key)
    requires x in LastN(Recent(log), n)
    ensures LastN(Recent(log + [x]), n) == Without(LastN(Recent(log), n), x) + [x]
  {
    RecentNext(log, x);
    RecentIsSet(log);
    LastNFacts(Recent(log), n);
    hide Recent, Without, NoRepeats, LastN;
    var r, held := Recent(log), LastN(Recent(log), n);
    var front := r[..|r| - |held|];
    HeldWithout(front, held, x);
    LastNOf(front, Without(held, x) + [x], n);
    assert front + Without(held, x) + [x] == front + (Without(held, x) + [x]);
  }

  /** Touching another key puts it at the end, and drops the key touched longest ago if all n places are taken. */
  lemma TouchOther(log: seq<Key>, n: nat, x: Key)
    requires n > 0 && x !in LastN(Recent(log), n)
    ensures var held := LastN(Recent(log), n);
      LastN(Recent(log + [x]), n) == (if |held| >= n then held[1..] else held) + [x]
  {
    RecentNext(log, x);
    LastNFacts(Recent(log), n);
    hide Recent, Without, NoRepeats, LastN;
    var r, held := Recent(log), LastN(Recent(log), n);
    var front := r[..|r| - |held|];
    WithoutAppend(front, held, x);
    WithoutAbsent(held, x);
    if |held| < n {
      assert Without([], x) == [];
      LastNOf([], held + [x], n);
      assert [] + held + [x] == [] + (held + [x]);
    } else {
      DropFirst(Without(front, x), held, x, n);
    }
  }

  lemma DropFirst(front: seq<Key>, held: seq<Key>, x: Key, n: nat)
    requires n > 0 && |held| == n
    ensures LastN(front + held + [x], n) == held[1..] + [x]
  {
    LastNOf(front + [held[0]], held[1..] + [x], n);
    assert front + held + [x] == (front + [held[0]]) + (held[1..] + [x]);
  }

  /** A log that touches keys that are all different has them as its recency order. */
  lemma {:induction false} RecentOfDistinct(s: seq<Key>)
    requires NoRepeats(s)
    ensures Recent(s) == s
  {
    if s != [] {
      var rest, last := s[..|s| - 1], s[|s| - 1];
      RecentOfDistinct(rest);
      assert last !in rest;
      WithoutAbsent(rest, last);
      assert s == rest + [last];
    }
  }
}
