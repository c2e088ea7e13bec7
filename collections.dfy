/** The two pieces of Python's `collections` module the smoothers use:
    `deque(maxlen=n).append` and `Counter(buffer).most_common(1)[0][0]`.
    A Counter is a dict, so its keys keep insertion order; counting a sequence
    inserts each value when it is first seen and adds one on every occurrence. */
module Collections {
  import opened Wrappers
  import Ranking

  /** A `deque(maxlen=n)` after `append(x)`: when full it drops its oldest
      entry, and with `maxlen == 0` it stays empty. The result is the newest
      `min(|buf| + 1, n)` elements of `buf + [x]`. */
  function DequeAppend<T>(buf: seq<T>, x: T, maxlen: nat): (r: seq<T>)
    requires |buf| <= maxlen
    ensures |r| == if |buf| < maxlen then |buf| + 1 else maxlen
    ensures r == (buf + [x])[|buf| + 1 - |r|..]
    ensures maxlen > 0 ==> r[|r| - 1] == x
  {
    if |buf| < maxlen then buf + [x]
    else if maxlen == 0 then []
    else
      assert (buf + [x])[1..] == buf[1..] + [x];
      buf[1..] + [x]
  }

  /** Number of occurrences of `x` in `s`. */
  function Count<T(==,!new)>(s: seq<T>, x: T): nat {
    multiset(s)[x]
  }

  /** Position of the first occurrence of `x` in `s`. */
  function FirstIndex<T(==,!new)>(s: seq<T>, x: T): (i: nat)
    requires x in s
    ensures i < |s| && s[i] == x
    ensures forall k :: 0 <= k < i ==> s[k] != x
  {
    if s[0] == x then 0 else 1 + FirstIndex(s[1..], x)
  }

  /** A Counter: its keys in insertion order, and the count of each key. */
  datatype Counter<T> = Counter(order: seq<T>, counts: map<T, nat>)

  /** One `counter[x] += 1`: a known key keeps its place, a new key goes last. */
  function Bump<T(==,!new)>(c: Counter<T>, x: T): Counter<T> {
    if x in c.counts then Counter(c.order, c.counts[x := c.counts[x] + 1])
    else Counter(c.order + [x], c.counts[x := 1])
  }

  /** `Counter(s)`: the elements of `s` counted from left to right. */
  function CounterOf<T(==,!new)>(s: seq<T>): Counter<T> {
    if s == [] then Counter([], map[])
    else Bump(CounterOf(s[..|s| - 1]), s[|s| - 1])
  }

  /** `c` is the Counter of `s`: its counts are the numbers of occurrences,
      and its keys are the elements of `s` in order of first occurrence. */
  ghost predicate Tallies<T(!new)>(c: Counter<T>, s: seq<T>) {
    CountsMatch(c, s) && KeysInOrder(c, s)
  }

  /** The keys are exactly the elements of `s`, each counted as often as it occurs. */
  ghost predicate CountsMatch<T(!new)>(c: Counter<T>, s: seq<T>) {
    && (forall x :: x in c.counts <==> x in s)
    && (forall x :: x in c.counts ==> c.counts[x] == Count(s, x))
  }

  /** The key list holds every element of `s` and nothing else, ordered by
      first occurrence (so each element once). */
  ghost predicate KeysInOrder<T(!new)>(c: Counter<T>, s: seq<T>) {
    && (forall i :: 0 <= i < |c.order| ==> c.order[i] in s)
    && (forall x :: x in s ==> x in c.order)
    && (forall i, j :: 0 <= i < j < |c.order| && c.order[i] in s && c.order[j] in s ==>
          FirstIndex(s, c.order[i]) < FirstIndex(s, c.order[j]))
  }

  /** Appending never moves the first occurrence of a value already present. */
  lemma FirstIndexAppend<T(!new)>(s: seq<T>, x: T, y: T)
    requires y in s
    ensures FirstIndex(s + [x], y) == FirstIndex(s, y)
  {
    assert forall k :: 0 <= k < |s| ==> (s + [x])[k] == s[k];
  }

  /** A value new to `s` first occurs at the position it is appended at. */
  lemma FirstIndexNew<T(!new)>(s: seq<T>, x: T)
    requires x !in s
    ensures FirstIndex(s + [x], x) == |s|
  {
  }

  /** Counting one more element keeps the Counter in step with the sequence. */
  lemma BumpTallies<T(!new)>(c: Counter<T>, s: seq<T>, x: T)
    requires Tallies(c, s)
    ensures Tallies(Bump(c, x), s + [x])
  {
    BumpKeys(c, s, x);
    BumpCounts(c, s, x);
  }

  /** One `+= 1` keeps the counts right. */
  lemma BumpCounts<T(!new)>(c: Counter<T>, s: seq<T>, x: T)
    requires CountsMatch(c, s)
    ensures CountsMatch(Bump(c, x), s + [x])
  {
  }

  /** One `+= 1` keeps the keys in first-occurrence order: a new key is the
      latest first occurrence. */
  lemma BumpKeys<T(!new)>(c: Counter<T>, s: seq<T>, x: T)
    requires CountsMatch(c, s) && KeysInOrder(c, s)
    ensures KeysInOrder(Bump(c, x), s + [x])
  {
    var s', c' := s + [x], Bump(c, x);
    forall y | y in s
      ensures FirstIndex(s', y) == FirstIndex(s, y)
    {
      FirstIndexAppend(s, x, y);
    }
    if x !in s {
      FirstIndexNew(s, x);
      forall i | 0 <= i < |c.order|
        ensures c'.order[i] in s && FirstIndex(s', c'.order[i]) < |s|
      {
        assert c'.order[i] == c.order[i];
      }
    }
  }

  /** CounterOf(s) is the Counter of `s`. */
  lemma {:induction false} CounterOfTallies<T(!new)>(s: seq<T>)
    ensures Tallies(CounterOf(s), s)
  {
    if s != [] {
      var init := s[..|s| - 1];
      CounterOfTallies(init);
      BumpTallies(CounterOf(init), init, s[|s| - 1]);
      assert init + [s[|s| - 1]] == s;
    }
  }

  /** The counts of the Counter's keys, in key order. */
  function CountsInOrder<T>(c: Counter<T>): seq<real>
    requires forall i :: 0 <= i < |c.order| ==> c.order[i] in c.counts
  {
    seq(|c.order|, i requires 0 <= i < |c.order| => c.counts[c.order[i]] as real)
  }

  /** `Counter(s).most_common(1)[0][0]`, or None where indexing the empty
      result of an empty Counter raises IndexError. */
  function MostCommon<T(==,!new)>(s: seq<T>): (r: Option<T>)
    ensures r.None? <==> s == []
    ensures r.Some? ==> r.value in s
  {
    if s == [] then None
    else
      var c := CounterOf(s);
      CounterOfTallies(s);
      assert s[0] in c.order;
      Some(c.order[Ranking.FirstArgMax(CountsInOrder(c))])
  }

  /** The vote is a mode of the window, and ties go to the value that first
      occurred earliest: every element placed before the winner's first
      occurrence has a strictly smaller count. */
  lemma MostCommonIsMode<T(!new)>(s: seq<T>)
    requires s != []
    ensures var x := MostCommon(s).value;
            && (forall i :: 0 <= i < |s| ==> Count(s, s[i]) <= Count(s, x))
            && (forall i :: 0 <= i < FirstIndex(s, x) ==> Count(s, s[i]) < Count(s, x))
  {
    var c := CounterOf(s);
    CounterOfTallies(s);
    assert s[0] in c.order;
    ModeFacts(s, c, Ranking.FirstArgMax(CountsInOrder(c)));
  }

  /** The key that most_common(1) picks, seen from the positions of `s`. */
  lemma ModeFacts<T(!new)>(s: seq<T>, c: Counter<T>, k: nat)
    requires Tallies(c, s)
    requires k < |c.order|
    requires forall i :: 0 <= i < |c.order| ==> c.order[i] in c.counts
    requires forall i :: 0 <= i < |c.order| ==> CountsInOrder(c)[i] <= CountsInOrder(c)[k]
    requires forall i :: 0 <= i < k ==> CountsInOrder(c)[i] < CountsInOrder(c)[k]
    ensures c.order[k] in s
    ensures var x := c.order[k];
            var j := FirstIndex(s, x);
            (forall i :: 0 <= i < |s| ==> Count(s, s[i]) <= Count(s, x)) &&
            (forall i :: 0 <= i < j ==> Count(s, s[i]) < Count(s, x))
  {
    var x := c.order[k];
    forall i | 0 <= i < |s|
      ensures Count(s, s[i]) <= Count(s, x)
      ensures i < FirstIndex(s, x) ==> Count(s, s[i]) < Count(s, x)
    {
      assert s[i] in c.order;
      var m := FirstIndex(c.order, s[i]);
      ModeCount(s, c, k, m);
      if i < FirstIndex(s, x) {
        KeyBefore(s, c, k, m, i);
      }
    }
  }

  /** The count of key `m` against that of the chosen key `k`. */
  lemma ModeCount<T(!new)>(s: seq<T>, c: Counter<T>, k: nat, m: nat)
    requires CountsMatch(c, s)
    requires k < |c.order| && m < |c.order|
    requires forall i :: 0 <= i < |c.order| ==> c.order[i] in c.counts
    requires forall i :: 0 <= i < |c.order| ==> CountsInOrder(c)[i] <= CountsInOrder(c)[k]
    requires forall i :: 0 <= i < k ==> CountsInOrder(c)[i] < CountsInOrder(c)[k]
    ensures Count(s, c.order[m]) <= Count(s, c.order[k])
    ensures m < k ==> Count(s, c.order[m]) < Count(s, c.order[k])
  {
    assert CountsInOrder(c)[m] == Count(s, c.order[m]) as real;
    assert CountsInOrder(c)[k] == Count(s, c.order[k]) as real;
  }

  /** A key occurring at a position before the first occurrence of key `k`
      is listed before `k`. */
  lemma KeyBefore<T(!new)>(s: seq<T>, c: Counter<T>, k: nat, m: nat, i: nat)
    requires KeysInOrder(c, s)
    requires k < |c.order| && m < |c.order| && i < |s| && c.order[m] == s[i]
    requires c.order[k] in s && i < FirstIndex(s, c.order[k])
    ensures m < k
  {
  }

  /** A window holding one label votes for that label. */
  lemma MostCommonSingleton<T(!new)>(x: T)
    ensures MostCommon([x]) == Some(x)
  {
  }
}
