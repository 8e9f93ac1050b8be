/** A bounded list of distinct items, most recently touched last. */
module RecentList {
  import opened DistinctItems

  /** Removes the first occurrence. */
  function Remove<T(==)>(s: seq<T>, x: T): (out: seq<T>)
    ensures x !in s ==> out == s
  {
    if s == [] then [] else if s[0] == x then s[1..] else [s[0]] + Remove(s[1..], x)
  }

  function Touched<T(==)>(s: seq<T>, x: T): seq<T> {
    Remove(s, x) + [x]
  }

  function Newest<T>(s: seq<T>, limit: nat): (out: seq<T>)
    ensures |out| <= limit
  {
    if |s| <= limit then s else s[|s| - limit..]
  }

  /** The items of a history, each once, in the order of their last occurrence. */
  function LastOccurrences<T(==)>(history: seq<T>): seq<T> {
    if history == [] then []
    else Touched(LastOccurrences(history[..|history| - 1]), history[|history| - 1])
  }

  lemma {:induction false} RemoveFacts<T>(s: seq<T>, x: T)
    requires Distinct(s)
    ensures Distinct(Remove(s, x)) && x !in Remove(s, x)
    ensures forall y :: y in Remove(s, x) <==> y in s && y != x
    ensures |Remove(s, x)| == |s| - (if x in s then 1 else 0)
  {
    if s != [] {
      RemoveFacts(s[1..], x);
      assert s[0] !in s[1..];
    }
  }

  lemma {:induction false} Assoc<T>(a: seq<T>, b: seq<T>, c: seq<T>)
    ensures a + b + c == a + (b + c)
  {
  }

  lemma {:induction false} RemoveSplit<T>(a: seq<T>, b: seq<T>, x: T)
    ensures Remove(a + b, x) == if x in a then Remove(a, x) + b else a + Remove(b, x)
  {
    if a == [] {
      assert a + b == b && a + Remove(b, x) == Remove(b, x);
    } else {
      var first, rest := [a[0]], a[1..];
      assert a == first + rest;
      assert (a + b)[1..] == rest + b;
      RemoveSplit(rest, b, x);
      if a[0] != x {
        Assoc(first, Remove(rest, x), b);
        Assoc(first, rest, Remove(b, x));
      }
    }
  }

  lemma {:induction false} RemoveBefore<T>(front: seq<T>, last: T, y: T)
    requires last == y ==> y !in front
    ensures Remove(front + [last], y) == if last == y then front else Remove(front, y) + [last]
  {
    RemoveSplit(front, [last], y);
    assert front + [] == front;
  }

  lemma {:induction false} TailMembers<T>(s: seq<T>, x: T)
    requires Distinct(s) && s != []
    ensures x in s[1..] <==> x in s && x != s[0]
  {
    assert s == [s[0]] + s[1..];
    assert s[0] !in s[1..];
  }

  lemma {:induction false} DistinctParts<T>(a: seq<T>, b: seq<T>, x: T)
    requires Distinct(a + b) && x in a
    ensures Distinct(a) && Distinct(b) && x !in b
  {
    var i :| 0 <= i < |a| && a[i] == x;
    forall j | 0 <= j < |b| ensures b[j] != x { assert (a + b)[i] != (a + b)[|a| + j]; }
    forall j, k | 0 <= j < k < |a| ensures a[j] != a[k] { assert (a + b)[j] != (a + b)[k]; }
    forall j, k | 0 <= j < k < |b| ensures b[j] != b[k] { assert (a + b)[|a| + j] != (a + b)[|a| + k]; }
  }

  lemma {:induction false} NewestOfAppend<T>(a: seq<T>, b: seq<T>, limit: nat)
    requires |b| >= limit
    ensures Newest(a + b, limit) == Newest(b, limit)
  {
  }

  /** Touching and trimming the bounded list keeps it the newest part of the full one. */
  lemma {:induction false} NewestTouched<T>(full: seq<T>, x: T, limit: nat)
    requires Distinct(full) && limit > 0
    ensures Newest(Touched(Newest(full, limit), x), limit) == Newest(Touched(full, x), limit)
  {
    if |full| > limit {
      var a, b := full[..|full| - limit], full[|full| - limit..];
      assert full == a + b;
      assert x !in a ==> Distinct(b);
      hide Remove, Distinct;
      RemoveSplit(a, b, x);
      if x in a {
        DistinctParts(a, b, x);
        assert Remove(a, x) + b + [x] == Remove(a, x) + (b + [x]);
        NewestOfAppend(Remove(a, x), b + [x], limit);
      } else {
        RemoveFacts(b, x);
        assert a + Remove(b, x) + [x] == a + (Remove(b, x) + [x]);
        NewestOfAppend(a, Remove(b, x) + [x], limit);
      }
    }
  }

  lemma {:induction false} LastOccurrencesDistinct<T>(history: seq<T>)
    ensures Distinct(LastOccurrences(history))
    ensures forall x :: x in LastOccurrences(history) <==> x in history
  {
    if history != [] {
      var front, last := history[..|history| - 1], history[|history| - 1];
      LastOccurrencesDistinct(front);
      RemoveFacts(LastOccurrences(front), last);
      assert history == front + [last];
    }
  }

  /** The distinct items after the last occurrence of `x`. */
  function Since<T(==)>(s: seq<T>, x: T): set<T> {
    if s == [] || s[|s| - 1] == x then {} else Since(s[..|s| - 1], x) + {s[|s| - 1]}
  }

  lemma {:induction false} SinceMembers<T>(s: seq<T>, x: T)
    ensures forall y :: y in Since(s, x) ==> y in s
  {
    if s != [] { SinceMembers(s[..|s| - 1], x); }
  }

  lemma {:induction false} DistinctFront<T>(s: seq<T>)
    requires Distinct(s) && s != []
    ensures Distinct(s[..|s| - 1]) && s[|s| - 1] !in s[..|s| - 1]
  {
  }

  /** Removing another item takes it, and nothing else, out of what comes after. */
  lemma {:induction false} SinceRemove<T>(s: seq<T>, x: T, y: T)
    requires Distinct(s) && x in s && x != y
    ensures Since(Remove(s, y), x) == Since(s, x) - {y}
  {
    hide Remove, Distinct;
    var front, last := s[..|s| - 1], s[|s| - 1];
    assert s == front + [last];
    DistinctFront(s);
    SinceMembers(front, x);
    RemoveBefore(front, last, y);
    if last != y {
      SinceAppend(Remove(front, y), last, x);
      if last != x { SinceRemove(front, x, y); }
    }
  }

  lemma {:induction false} SinceAppend<T>(front: seq<T>, last: T, x: T)
    ensures Since(front + [last], x) == if last == x then {} else Since(front, x) + {last}
  {
    assert (front + [last])[..|front|] == front;
  }

  /** What stands after an item in the full list is what came after it in the history. */
  lemma {:induction false} SinceAgrees<T>(history: seq<T>, x: T)
    requires x in history
    ensures Since(LastOccurrences(history), x) == Since(history, x)
  {
    var front, last := history[..|history| - 1], history[|history| - 1];
    var before := LastOccurrences(front);
    assert history == front + [last];
    LastOccurrencesDistinct(front);
    var r := Remove(before, last);
    assert (r + [last])[..|r|] == r;
    if last != x {
      SinceAgrees(front, x);
      SinceRemove(before, x, last);
    }
  }

  lemma {:induction false} SinceCount<T>(s: seq<T>, i: nat)
    requires Distinct(s) && i < |s|
    ensures |Since(s, s[i])| == |s| - 1 - i
  {
    if i < |s| - 1 {
      var front := s[..|s| - 1];
      SinceCount(front, i);
      SinceMembers(front, s[i]);
    }
  }

  /** The bounded list holds an item exactly when it occurred and fewer than `limit` other
      items occurred since. */
  lemma {:induction false} ListedIff<T>(history: seq<T>, x: T, limit: nat)
    ensures x in Newest(LastOccurrences(history), limit) <==> x in history && |Since(history, x)| < limit
  {
    var full := LastOccurrences(history);
    LastOccurrencesDistinct(history);
    if x in history {
      var i :| 0 <= i < |full| && full[i] == x;
      SinceAgrees(history, x);
      SinceCount(full, i);
      if |full| > limit {
        var k := |full| - limit;
        assert i >= k ==> full[k..][i - k] == x;
        if x in full[k..] {
          var j :| 0 <= j < |full[k..]| && full[k..][j] == x;
          assert full[k + j] == x;
        }
      }
    }
  }
}
