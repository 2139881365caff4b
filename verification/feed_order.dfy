/**
 * The order of the notification feed: administrator messages first; within
 * the administrator bucket and within the rest, later dates first and undated
 * entries last. The order among entries the rule does not separate (equal
 * dates, or two undated entries) is left open.
 */
module FeedOrder {
  import opened Seqs
  import opened Feed

  predicate IsAdmin(n: Notification)
  {
    n.kind == AdminMessage
  }

  /** `a` must be shown before `b`. */
  predicate Precedes(a: Notification, b: Notification)
  {
    || (IsAdmin(a) && !IsAdmin(b))
    || (IsAdmin(a) == IsAdmin(b) && a.date.Some? && b.date.None?)
    || (IsAdmin(a) == IsAdmin(b) && a.date.Some? && b.date.Some? && a.date.value > b.date.value)
  }

  /** No entry is shown after one it must precede. */
  predicate Sorted(s: seq<Notification>)
  {
    forall i, j :: 0 <= i < j < |s| ==> !Precedes(s[j], s[i])
  }

  /**
   * `Precedes` is a strict weak order: irreflexive, transitive, and "not
   * after" is transitive too, so a sorted arrangement always exists.
   */
  lemma PrecedesIsStrictWeakOrder(a: Notification, b: Notification, c: Notification)
    ensures !Precedes(a, a)
    ensures Precedes(a, b) ==> !Precedes(b, a)
    ensures Precedes(a, b) && Precedes(b, c) ==> Precedes(a, c)
    ensures !Precedes(b, a) && !Precedes(c, b) ==> !Precedes(c, a)
  {
  }

  /** What a sorted feed looks like, spelled out bucket by bucket. */
  lemma SortedFeedOrder(s: seq<Notification>, i: nat, j: nat)
    requires Sorted(s) && i < j < |s|
    ensures IsAdmin(s[j]) ==> IsAdmin(s[i])
    ensures IsAdmin(s[i]) == IsAdmin(s[j]) && s[j].date.Some? ==> s[i].date.Some?
    ensures IsAdmin(s[i]) == IsAdmin(s[j]) && s[i].date.Some? && s[j].date.Some? ==> s[i].date.value >= s[j].date.value
  {
  }

  /**
   * The comparator as the feed's sort call writes it: negative keeps `a`
   * first, positive puts `b` first.
   */
  function SourceCompare(a: Notification, b: Notification): int
  {
    if IsAdmin(a) && !IsAdmin(b) then -1
    else if IsAdmin(b) && !IsAdmin(a) then 1
    else if a.date.None? then 1
    else if b.date.None? then -1
    else b.date.value - a.date.value
  }

  function Sign(x: int): int
  {
    if x < 0 then -1 else if x > 0 then 1 else 0
  }

  /**
   * The comparator as written answers "the other one first" for both orders of
   * two undated entries of one bucket, so it is not a consistent comparator.
   */
  lemma SourceCompareInconsistent(a: Notification, b: Notification)
    requires IsAdmin(a) == IsAdmin(b) && a.date.None? && b.date.None?
    ensures SourceCompare(a, b) > 0 && SourceCompare(b, a) > 0
    ensures Sign(SourceCompare(a, b)) != -Sign(SourceCompare(b, a))
  {
  }

  /** The comparator with two undated entries of one bucket treated as equal. */
  function Compare(a: Notification, b: Notification): (r: int)
    ensures r < 0 <==> Precedes(a, b)
    ensures r > 0 <==> Precedes(b, a)
  {
    if IsAdmin(a) && !IsAdmin(b) then -1
    else if IsAdmin(b) && !IsAdmin(a) then 1
    else if a.date.None? && b.date.None? then 0
    else if a.date.None? then 1
    else if b.date.None? then -1
    else b.date.value - a.date.value
  }

  /** The corrected comparator is consistent: antisymmetric in sign and transitive. */
  lemma CompareIsConsistent(a: Notification, b: Notification, c: Notification)
    ensures Sign(Compare(a, b)) == -Sign(Compare(b, a))
    ensures Compare(a, a) == 0
    ensures Compare(a, b) <= 0 && Compare(b, c) <= 0 ==> Compare(a, c) <= 0
    ensures Compare(a, b) == 0 && Compare(b, c) == 0 ==> Compare(a, c) == 0
  {
    PrecedesIsStrictWeakOrder(a, b, c);
  }

  /** Outside the pairs of undated entries the two comparators agree. */
  lemma CompareMatchesSource(a: Notification, b: Notification)
    requires !(IsAdmin(a) == IsAdmin(b) && a.date.None? && b.date.None?)
    ensures Compare(a, b) == SourceCompare(a, b)
  {
  }

  /** `x` placed into a feed before the first entry it must precede. */
  function Insert(s: seq<Notification>, x: Notification): (r: seq<Notification>)
    ensures multiset(r) == multiset(s) + multiset{x}
  {
    if s == [] then [x]
    else if Compare(x, s[0]) < 0 then [x] + s
    else
      assert s == [s[0]] + s[1..];
      [s[0]] + Insert(s[1..], x)
  }

  /** An entry that no entry of a sorted feed must precede can head it. */
  lemma PrependSorted(x: Notification, s: seq<Notification>)
    requires Sorted(s)
    requires forall y :: y in s ==> !Precedes(y, x)
    ensures Sorted([x] + s)
  {
    var r := [x] + s;
    forall i, j | 0 <= i < j < |r| ensures !Precedes(r[j], r[i]) {
      if i > 0 {
        assert r[i] == s[i - 1] && r[j] == s[j - 1];
      } else {
        assert r[j] in s;
      }
    }
  }

  /** The last entry of a sorted feed precedes none of the entries before it. */
  lemma SortedLast(init: seq<Notification>, last: Notification)
    requires Sorted(init + [last])
    ensures forall y :: y in init ==> !Precedes(last, y)
  {
    var s := init + [last];
    forall y | y in init ensures !Precedes(last, y) {
      var k :| 0 <= k < |init| && init[k] == y;
      assert s[k] == y && s[|init|] == last;
    }
  }

  /** An entry that must precede no entry of a sorted feed can close it. */
  lemma AppendSorted(s: seq<Notification>, x: Notification)
    requires Sorted(s)
    requires forall y :: y in s ==> !Precedes(x, y)
    ensures Sorted(s + [x])
  {
    var r := s + [x];
    forall i, j | 0 <= i < j < |r| ensures !Precedes(r[j], r[i]) {
      assert r[i] == s[i];
      if j < |s| {
        assert r[j] == s[j];
      }
    }
  }

  /** Inserting into a sorted feed keeps it sorted. */
  lemma {:induction false} InsertSorted(s: seq<Notification>, x: Notification)
    requires Sorted(s)
    ensures Sorted(Insert(s, x))
  {
    if s == [] {
    } else if Compare(x, s[0]) < 0 {
      forall y | y in s ensures !Precedes(y, x) {
        var k :| 0 <= k < |s| && s[k] == y;
        PrecedesIsStrictWeakOrder(y, x, s[0]);
        assert k > 0 ==> !Precedes(s[k], s[0]);
      }
      PrependSorted(x, s);
    } else {
      var tail := s[1..];
      var rest := Insert(tail, x);
      InsertSorted(tail, x);
      forall y | y in rest ensures !Precedes(y, s[0]) {
        assert y in multiset(rest);
        if y != x {
          assert y in tail;
          var k :| 0 <= k < |tail| && tail[k] == y;
          assert s[k + 1] == y;
        }
      }
      PrependSorted(s[0], rest);
    }
  }

  /** Neither entry must be shown before the other: the feed order ranks them equally. */
  predicate SameRank(a: Notification, b: Notification)
  {
    !Precedes(a, b) && !Precedes(b, a)
  }

  /** The test "ranks equally with `e`", as a filter takes it. */
  function RankOf(e: Notification): Notification -> bool
  {
    (z: Notification) => SameRank(z, e)
  }

  /** No entry of a sorted feed ranks equally with an entry that must precede its head. */
  lemma NoRankBehind(s: seq<Notification>, x: Notification)
    requires Sorted(s) && s != [] && Precedes(x, s[0])
    ensures forall y :: y in s ==> !SameRank(y, x)
  {
    forall y | y in s ensures !SameRank(y, x) {
      var k :| 0 <= k < |s| && s[k] == y;
      assert k > 0 ==> !Precedes(s[k], s[0]);
    }
  }

  /** An entry placed in front of a sorted feed it precedes closes its rank there. */
  lemma PrependStable(s: seq<Notification>, x: Notification, e: Notification)
    requires Sorted(s) && s != [] && Precedes(x, s[0])
    ensures Filter([x] + s, RankOf(e)) == Filter(s, RankOf(e)) + Filter([x], RankOf(e))
  {
    var p := RankOf(e);
    FilterConcat([x], s, p);
    FilterSingleton(x, p);
    if p(x) {
      NoRankBehind(s, x);
      FilterMembers(s, p);
      assert forall y :: y in Filter(s, p) ==> SameRank(y, e) && SameRank(x, e) && y in s;
      EmptyWithoutMembers(Filter(s, p));
    }
  }

  /** A feed without its head is still sorted. */
  lemma SortedTail(s: seq<Notification>)
    requires Sorted(s) && s != []
    ensures Sorted(s[1..])
  {
    var tail := s[1..];
    forall i, j | 0 <= i < j < |tail| ensures !Precedes(tail[j], tail[i]) {
      assert tail[i] == s[i + 1] && tail[j] == s[j + 1];
    }
  }

  /**
   * Inserting into a sorted feed puts the new entry after every entry of its
   * rank: the entries of any one rank keep their order, and the new entry, if
   * of that rank, comes last among them.
   */
  lemma {:induction false} InsertStable(s: seq<Notification>, x: Notification, e: Notification)
    requires Sorted(s)
    ensures Filter(Insert(s, x), RankOf(e)) == Filter(s, RankOf(e)) + Filter([x], RankOf(e))
    decreases |s|
  {
    var p := RankOf(e);
    if s == [] {
    } else if Compare(x, s[0]) < 0 {
      assert Insert(s, x) == [x] + s;
      PrependStable(s, x, e);
    } else {
      var tail := s[1..];
      var rest := Insert(tail, x);
      assert Insert(s, x) == [s[0]] + rest;
      assert s == [s[0]] + tail;
      SortedTail(s);
      InsertStable(tail, x, e);
      ConsStable(s[0], tail, rest, x, p);
    }
  }

  /** An entry kept in front of both sides leaves a rank's order relation intact. */
  lemma ConsStable(h: Notification, tail: seq<Notification>, rest: seq<Notification>, x: Notification, p: Notification -> bool)
    requires Filter(rest, p) == Filter(tail, p) + Filter([x], p)
    ensures Filter([h] + rest, p) == Filter([h] + tail, p) + Filter([x], p)
  {
    FilterConcat([h], rest, p);
    FilterConcat([h], tail, p);
  }

  /**
   * Two sorted feeds with the same entries, in which every rank lists its
   * entries in the same order, are the same feed: the feed order together
   * with stability leaves no choice.
   */
  lemma {:induction false} SortedUnique(a: seq<Notification>, b: seq<Notification>)
    requires Sorted(a) && Sorted(b)
    requires multiset(a) == multiset(b)
    requires forall e :: Filter(a, RankOf(e)) == Filter(b, RankOf(e))
    ensures a == b
    decreases |a|
  {
    if a != [] {
      assert |b| == |multiset(b)| == |multiset(a)| == |a|;
      SameHead(a, b);
      forall e ensures Filter(a[1..], RankOf(e)) == Filter(b[1..], RankOf(e)) {
        SameTailRank(a, b, RankOf(e));
      }
      assert a == [a[0]] + a[1..] && b == [b[0]] + b[1..];
      assert multiset(a) == multiset{a[0]} + multiset(a[1..]);
      assert multiset(b) == multiset{a[0]} + multiset(b[1..]);
      assert multiset(a[1..]) == multiset(a) - multiset{a[0]};
      assert multiset(b[1..]) == multiset(b) - multiset{a[0]};
      SortedTail(a);
      SortedTail(b);
      SortedUnique(a[1..], b[1..]);
    }
  }

  /** Two such feeds open with the same entry: it heads the list of its rank in both. */
  lemma SameHead(a: seq<Notification>, b: seq<Notification>)
    requires Sorted(a) && Sorted(b) && a != [] && b != []
    requires multiset(a) == multiset(b)
    requires forall e :: Filter(a, RankOf(e)) == Filter(b, RankOf(e))
    ensures a[0] == b[0]
  {
    var x, y := a[0], b[0];
    HeadRanksFirst(a, y);
    HeadRanksFirst(b, x);
    var p := RankOf(x);
    HeadOfRank(a, p);
    HeadOfRank(b, p);
    PrecedesIsStrictWeakOrder(x, y, x);
    assert p(x) && p(y);
    assert Filter(a, p) == Filter(b, p);
    assert Filter(a, p)[0] == x && Filter(b, p)[0] == y;
  }

  /** Behind a shared head, the lists of each rank still agree. */
  lemma SameTailRank(a: seq<Notification>, b: seq<Notification>, r: Notification -> bool)
    requires a != [] && b != [] && a[0] == b[0]
    requires Filter(a, r) == Filter(b, r)
    ensures Filter(a[1..], r) == Filter(b[1..], r)
  {
    HeadOfRank(a, r);
    HeadOfRank(b, r);
    var h := if r(a[0]) then [a[0]] else [];
    assert Filter(a[1..], r) == (h + Filter(a[1..], r))[|h|..];
    assert Filter(b[1..], r) == (h + Filter(b[1..], r))[|h|..];
  }

  /** No entry of a sorted feed must be shown before its head. */
  lemma HeadRanksFirst(s: seq<Notification>, y: Notification)
    requires Sorted(s) && s != [] && y in multiset(s)
    ensures !Precedes(y, s[0])
  {
    var k :| 0 <= k < |s| && s[k] == y;
    assert k > 0 ==> !Precedes(s[k], s[0]);
  }

  /** A filter of a non-empty feed is the filter of its tail, preceded by the head when the head passes. */
  lemma HeadOfRank(s: seq<Notification>, p: Notification -> bool)
    requires s != []
    ensures Filter(s, p) == (if p(s[0]) then [s[0]] else []) + Filter(s[1..], p)
  {
    assert s == [s[0]] + s[1..];
    FilterConcat([s[0]], s[1..], p);
    FilterSingleton(s[0], p);
  }

  /** One step of the sort: inserting `items[i]` extends each rank by it, as `items[..i + 1]` does. */
  lemma SortStep(items: seq<Notification>, i: nat, sorted: seq<Notification>, e: Notification)
    requires i < |items| && Sorted(sorted)
    requires Filter(sorted, RankOf(e)) == Filter(items[..i], RankOf(e))
    ensures Filter(Insert(sorted, items[i]), RankOf(e)) == Filter(items[..i + 1], RankOf(e))
  {
    InsertStable(sorted, items[i], e);
    assert items[..i + 1] == items[..i] + [items[i]];
    FilterConcat(items[..i], [items[i]], RankOf(e));
  }

  /**
   * Sorts the feed: the result is a permutation of `items` in the feed order,
   * and entries the order ranks equally keep the order they had in `items`
   * (a stable sort), which fixes the result completely (`SortedUnique`).
   */
  method SortFeed(items: seq<Notification>) returns (sorted: seq<Notification>)
    ensures Sorted(sorted)
    ensures multiset(sorted) == multiset(items)
    ensures forall e :: Filter(sorted, RankOf(e)) == Filter(items, RankOf(e))
  {
    sorted := [];
    var i := 0;
    while i < |items|
      invariant 0 <= i <= |items|
      invariant Sorted(sorted)
      invariant multiset(sorted) == multiset(items[..i])
      invariant forall e :: Filter(sorted, RankOf(e)) == Filter(items[..i], RankOf(e))
    {
      InsertSorted(sorted, items[i]);
      forall e ensures Filter(Insert(sorted, items[i]), RankOf(e)) == Filter(items[..i + 1], RankOf(e)) {
        SortStep(items, i, sorted, e);
      }
      sorted := Insert(sorted, items[i]);
      assert items[..i + 1] == items[..i] + [items[i]];
      i := i + 1;
    }
    assert items[..|items|] == items;
  }
}
