/**
 * `removeDuplicatedInterests` (src/app/profile/components/ProfileForm.tsx):
 * the loop that marks every interest whose value an earlier interest already
 * has, and what removing the marked entries leaves.
 */
module InterestDedup {

  /** One entry of the `interests` field array. */
  datatype InterestEntry = InterestEntry(id: int, value: string)

  /** The values that occur in `s`. */
  function ValuesOf(s: seq<InterestEntry>): set<string>
  {
    set i | 0 <= i < |s| :: s[i].value
  }

  /** Some entry before `i` has the same value as entry `i`. */
  ghost predicate IsRepeat(s: seq<InterestEntry>, i: int)
    requires 0 <= i < |s|
  {
    exists j :: 0 <= j < i && s[j].value == s[i].value
  }

  /** The positions of all repeats. */
  ghost function RepeatIndexes(s: seq<InterestEntry>): set<int>
  {
    set i | 0 <= i < |s| && IsRepeat(s, i)
  }

  /**
   * The loop of `removeDuplicatedInterests`: the indices it collects are
   * increasing, in range, and are exactly the repeats; the first entry is never
   * collected. An empty value is a value like any other.
   */
  method CollectRepeats(fields: seq<InterestEntry>) returns (indexesToRemove: seq<int>)
    ensures forall a, b :: 0 <= a < b < |indexesToRemove| ==> indexesToRemove[a] < indexesToRemove[b]
    ensures forall k :: 0 <= k < |indexesToRemove| ==> 0 < indexesToRemove[k] < |fields|
    ensures forall i :: 0 <= i < |fields| ==> (i in indexesToRemove <==> IsRepeat(fields, i))
  {
    var uniqueInterests: set<string> := {};
    indexesToRemove := [];
    var index := 0;
    while index < |fields|
      invariant 0 <= index <= |fields|
      invariant uniqueInterests == ValuesOf(fields[..index])
      invariant forall a, b :: 0 <= a < b < |indexesToRemove| ==> indexesToRemove[a] < indexesToRemove[b]
      invariant forall k :: 0 <= k < |indexesToRemove| ==> 0 < indexesToRemove[k] < index
      invariant forall i :: 0 <= i < index ==> (i in indexesToRemove <==> IsRepeat(fields, i))
    {
      RepeatIffSeen(fields, index);
      ValuesOfSnoc(fields, index);
      if fields[index].value in uniqueInterests {
        indexesToRemove := indexesToRemove + [index];
      } else {
        uniqueInterests := uniqueInterests + {fields[index].value};
      }
      index := index + 1;
    }
  }

  /** Entry `i` is a repeat exactly when its value is among the values before it. */
  lemma RepeatIffSeen(s: seq<InterestEntry>, i: int)
    requires 0 <= i < |s|
    ensures IsRepeat(s, i) <==> s[i].value in ValuesOf(s[..i])
  {
    if s[i].value in ValuesOf(s[..i]) {
      var j :| 0 <= j < i && s[..i][j].value == s[i].value;
      assert s[j].value == s[i].value;
    }
  }

  /** Extending a prefix by one entry adds that entry's value. */
  lemma ValuesOfSnoc(s: seq<InterestEntry>, i: int)
    requires 0 <= i < |s|
    ensures ValuesOf(s[..i + 1]) == ValuesOf(s[..i]) + {s[i].value}
  {
    assert s[..i + 1] == s[..i] + [s[i]];
    var p := s[..i];
    forall v | v in ValuesOf(s[..i + 1]) ensures v in ValuesOf(p) + {s[i].value} {
      var k :| 0 <= k < i + 1 && s[..i + 1][k].value == v;
      if k < i { assert p[k].value == v; }
    }
    forall v | v in ValuesOf(p) ensures v in ValuesOf(s[..i + 1]) {
      var k :| 0 <= k < i && p[k].value == v;
      assert s[..i + 1][k].value == v;
    }
  }

  /** The field array's `remove(indexes)`: the entries whose positions are not in `drop`, in order. */
  function Without<T>(s: seq<T>, drop: set<int>): (r: seq<T>)
    ensures |r| <= |s|
  {
    if s == [] then []
    else Without(s[..|s| - 1], drop) + (if |s| - 1 in drop then [] else [s[|s| - 1]])
  }

  /** The positions below `n` that are not in `drop`, in increasing order. */
  function KeptIndexes(n: nat, drop: set<int>): (kept: seq<int>)
    ensures forall a, b :: 0 <= a < b < |kept| ==> kept[a] < kept[b]
    ensures forall k :: 0 <= k < |kept| ==> 0 <= kept[k] < n
    ensures forall i :: 0 <= i < n ==> (i in kept <==> i !in drop)
  {
    if n == 0 then [] else KeptIndexes(n - 1, drop) + (if n - 1 in drop then [] else [n - 1])
  }

  /** Removal is stable: the k-th survivor is the entry at the k-th kept position. */
  lemma {:induction false} WithoutIsStable<T>(s: seq<T>, drop: set<int>)
    ensures |Without(s, drop)| == |KeptIndexes(|s|, drop)|
    ensures forall k :: 0 <= k < |Without(s, drop)| ==> Without(s, drop)[k] == s[KeptIndexes(|s|, drop)[k]]
  {
    if s != [] {
      var n := |s| - 1;
      var front, kept := Without(s[..n], drop), KeptIndexes(n, drop);
      WithoutIsStable(s[..n], drop);
      var r, all := Without(s, drop), KeptIndexes(|s|, drop);
      assert r == front + (if n in drop then [] else [s[n]]);
      assert all == kept + (if n in drop then [] else [n]);
      forall k | 0 <= k < |r| ensures r[k] == s[all[k]] {
        if k < |front| {
          assert r[k] == front[k] == s[..n][kept[k]];
          assert all[k] == kept[k] < n;
        } else {
          assert r[k] == s[n] && all[k] == n;
        }
      }
    }
  }

  /** Removal looks only at the positions that exist. */
  lemma {:induction false} WithoutAgrees<T>(s: seq<T>, a: set<int>, b: set<int>)
    requires forall i :: 0 <= i < |s| ==> (i in a <==> i in b)
    ensures Without(s, a) == Without(s, b)
  {
    if s != [] {
      WithoutAgrees(s[..|s| - 1], a, b);
    }
  }

  /** Removing nothing leaves the list as it is. */
  lemma {:induction false} WithoutNothing<T>(s: seq<T>, drop: set<int>)
    requires forall i :: 0 <= i < |s| ==> i !in drop
    ensures Without(s, drop) == s
  {
    if s != [] {
      WithoutNothing(s[..|s| - 1], drop);
    }
  }

  /** What `removeDuplicatedInterests` leaves: every repeat removed. */
  ghost function Deduplicated(s: seq<InterestEntry>): seq<InterestEntry>
  {
    Without(s, RepeatIndexes(s))
  }

  /** A repeat in a prefix is a repeat in the whole list. */
  lemma RepeatInPrefix(s: seq<InterestEntry>, n: int)
    requires 0 <= n <= |s|
    ensures forall i :: 0 <= i < n ==> (i in RepeatIndexes(s[..n]) <==> i in RepeatIndexes(s))
  {
    forall i | 0 <= i < n ensures IsRepeat(s[..n], i) <==> IsRepeat(s, i) {
      if IsRepeat(s, i) {
        var j :| 0 <= j < i && s[j].value == s[i].value;
        assert s[..n][j].value == s[..n][i].value;
      }
      if IsRepeat(s[..n], i) {
        var j :| 0 <= j < i && s[..n][j].value == s[..n][i].value;
        assert s[j].value == s[i].value;
      }
    }
  }

  /**
   * No loss, no repeat: the survivors hold every value the list held, and no
   * two of them hold the same value.
   */
  lemma {:induction false} DeduplicatedIsFirstOccurrences(s: seq<InterestEntry>)
    ensures ValuesOf(Deduplicated(s)) == ValuesOf(s)
    ensures forall a, b :: 0 <= a < b < |Deduplicated(s)| ==> Deduplicated(s)[a].value != Deduplicated(s)[b].value
  {
    if s != [] {
      var n := |s| - 1;
      var front := s[..n];
      var x := s[n];
      DeduplicatedIsFirstOccurrences(front);
      RepeatInPrefix(s, n);
      WithoutAgrees(front, RepeatIndexes(s), RepeatIndexes(front));
      var r' := Deduplicated(front);
      assert Without(s, RepeatIndexes(s)) == Without(front, RepeatIndexes(s)) + (if n in RepeatIndexes(s) then [] else [x]);
      RepeatIffSeen(s, n);
      assert s[..n] == front;
      ValuesOfSnoc(s, n);
      assert s[..n + 1] == s;
      if n in RepeatIndexes(s) {
        assert Deduplicated(s) == r';
      } else {
        assert Deduplicated(s) == r' + [x];
        assert x.value !in ValuesOf(r');
        assert ValuesOf(s) == ValuesOf(front) + {x.value};
        forall v | v in ValuesOf(r' + [x]) ensures v in ValuesOf(r') + {x.value} {
          var k :| 0 <= k < |r'| + 1 && (r' + [x])[k].value == v;
          if k < |r'| { assert r'[k].value == v; }
        }
        forall v | v in ValuesOf(r') ensures v in ValuesOf(r' + [x]) {
          var k :| 0 <= k < |r'| && r'[k].value == v;
          assert (r' + [x])[k].value == v;
        }
        assert (r' + [x])[|r'|].value == x.value;
        assert ValuesOf(r' + [x]) == ValuesOf(r') + {x.value};
        forall a, b | 0 <= a < b < |r'| + 1 ensures (r' + [x])[a].value != (r' + [x])[b].value {
          if b == |r'| {
            assert r'[a].value in ValuesOf(r');
          }
        }
      }
    }
  }

  /**
   * No reorder: the survivors are the entries at the non-repeat positions, in
   * increasing order of position.
   */
  lemma DeduplicatedKeepsOrder(s: seq<InterestEntry>)
    ensures var kept := KeptIndexes(|s|, RepeatIndexes(s));
      && |Deduplicated(s)| == |kept|
      && (forall a, b :: 0 <= a < b < |kept| ==> kept[a] < kept[b])
      && (forall i :: 0 <= i < |s| ==> (i in kept <==> !IsRepeat(s, i)))
      && (forall k :: 0 <= k < |kept| ==> 0 <= kept[k] < |s| && Deduplicated(s)[k] == s[kept[k]])
  {
    WithoutIsStable(s, RepeatIndexes(s));
  }

  /** Idempotence: the deduplicated list has no repeats, so a second pass removes nothing. */
  lemma DeduplicatedIsIdempotent(s: seq<InterestEntry>)
    ensures RepeatIndexes(Deduplicated(s)) == {}
    ensures Deduplicated(Deduplicated(s)) == Deduplicated(s)
  {
    var r := Deduplicated(s);
    DeduplicatedIsFirstOccurrences(s);
    forall i | 0 <= i < |r| ensures !IsRepeat(r, i) {
    }
    WithoutNothing(r, RepeatIndexes(r));
  }

  /** Two unfilled slots: the later one is removed, because an empty value is not exempt. */
  lemma LaterEmptySlotIsRemoved(s: seq<InterestEntry>, j: int, i: int)
    requires 0 <= j < i < |s| && s[j].value == "" && s[i].value == ""
    ensures i in RepeatIndexes(s)
  {
  }

  /** Hiking, Hiking, Yoga: index 1 is removed, leaving Hiking and Yoga in their order. */
  lemma HikingExample()
    ensures var s := [InterestEntry(1, "Hiking"), InterestEntry(2, "Hiking"), InterestEntry(3, "Yoga")];
      RepeatIndexes(s) == {1} && Deduplicated(s) == [InterestEntry(1, "Hiking"), InterestEntry(3, "Yoga")]
  {
    var s := [InterestEntry(1, "Hiking"), InterestEntry(2, "Hiking"), InterestEntry(3, "Yoga")];
    assert IsRepeat(s, 1) by { assert s[0].value == s[1].value; }
    assert !IsRepeat(s, 2);
    assert RepeatIndexes(s) == {1};
    assert s[..1][..0] == [];
    assert Without(s[..1], {1}) == [s[0]];
    assert s[..2][..1] == s[..1];
    assert Without(s[..2], {1}) == [s[0]];
    assert s[..2] == s[..|s| - 1];
    assert Without(s, {1}) == [s[0], s[2]];
  }
}
