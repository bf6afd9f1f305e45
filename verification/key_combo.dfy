/**
 * `key_combo` (keyboard.hpp, impl/keyboard.cpp): a set of keycodes held in a
 * `flat_set` ordered by `std::greater`, i.e. a strictly descending vector.
 * The sorted-vector operations of `flat_set` are the functions `Insert` and
 * `Erase`; the class `KeyCombo` holds the vector and updates it in place.
 */
module KeyCombos {
  import opened KeyCodes

  /** The `flat_set<keycode, std::greater<>>` representation invariant. */
  predicate Descending(s: seq<Keycode>) {
    forall i, j | 0 <= i < j < |s| :: s[i] > s[j]
  }

  predicate NoDuplicates(s: seq<Keycode>) {
    forall i, j | 0 <= i < j < |s| :: s[i] != s[j]
  }

  function Elements(s: seq<Keycode>): set<Keycode> {
    set x | x in s
  }

  lemma ElementsCons(s: seq<Keycode>)
    requires |s| > 0
    ensures Elements(s) == {s[0]} + Elements(s[1..])
  {
    assert s == [s[0]] + s[1..];
  }

  /** In a descending vector every key after the first is below the first. */
  lemma HeadIsGreatest(s: seq<Keycode>)
    requires Descending(s) && |s| > 0
    ensures forall y | y in Elements(s[1..]) :: y < s[0]
  {
    forall y | y in Elements(s[1..]) ensures y < s[0] {
      var j :| 0 <= j < |s[1..]| && s[1..][j] == y;
      assert s[j + 1] == y;
    }
  }

  /** A key above everything in a descending vector can be put in front of it. */
  lemma PrependKeepsDescending(x: Keycode, t: seq<Keycode>)
    requires Descending(t)
    requires forall y | y in Elements(t) :: y < x
    ensures Descending([x] + t)
  {
    forall j | 0 <= j < |t| ensures t[j] < x {
      assert t[j] in Elements(t);
    }
  }

  /** `flat_set::insert(key)`: the key goes to its place in the descending order, unless present. */
  function Insert(s: seq<Keycode>, k: Keycode): (r: seq<Keycode>)
    requires Descending(s)
    ensures Descending(r)
    ensures Elements(r) == Elements(s) + {k}
    ensures |r| == if k in s then |s| else |s| + 1
  {
    if |s| == 0 then [k]
    else if k > s[0] then
      ElementsCons([k] + s);
      HeadIsGreatest(s);
      ElementsCons(s);
      PrependKeepsDescending(k, s);
      [k] + s
    else if k == s[0] then s
    else
      var t := Insert(s[1..], k);
      InsertBelowHead(s, k, t);
      [s[0]] + t
  }

  /** Putting the head back in front of the rest with `k` inserted inserts `k` into the whole. */
  lemma InsertBelowHead(s: seq<Keycode>, k: Keycode, t: seq<Keycode>)
    requires Descending(s) && |s| > 0 && k < s[0]
    requires Descending(t) && Elements(t) == Elements(s[1..]) + {k}
    requires |t| == if k in s[1..] then |s| - 1 else |s|
    ensures Descending([s[0]] + t)
    ensures Elements([s[0]] + t) == Elements(s) + {k}
    ensures |[s[0]] + t| == if k in s then |s| else |s| + 1
  {
    ElementsCons(s);
    HeadIsGreatest(s);
    PrependKeepsDescending(s[0], t);
    ElementsCons([s[0]] + t);
    assert ([s[0]] + t)[1..] == t;
    assert s == [s[0]] + s[1..];
  }

  /** `flat_set::erase(find(key))`: the key leaves, everything else keeps its order. */
  function Erase(s: seq<Keycode>, k: Keycode): (r: seq<Keycode>)
    requires Descending(s)
    ensures Descending(r)
    ensures Elements(r) == Elements(s) - {k}
    ensures |r| == if k in s then |s| - 1 else |s|
  {
    if |s| == 0 then []
    else if s[0] == k then
      ElementsCons(s);
      HeadIsGreatest(s);
      s[1..]
    else
      var t := Erase(s[1..], k);
      ElementsCons(s);
      HeadIsGreatest(s);
      PrependKeepsDescending(s[0], t);
      ElementsCons([s[0]] + t);
      assert ([s[0]] + t)[1..] == t;
      [s[0]] + t
  }

  /** `flat_set::insert(first, last)`: every key of the list, inserted in turn. */
  function InsertAll(s: seq<Keycode>, list: seq<Keycode>): (r: seq<Keycode>)
    requires Descending(s)
    ensures Descending(r)
    ensures Elements(r) == Elements(s) + Elements(list)
    decreases |list|
  {
    if |list| == 0 then s
    else
      assert Elements(list) == {list[0]} + Elements(list[1..]);
      InsertAll(Insert(s, list[0]), list[1..])
  }

  /** A descending vector has no duplicates, so its length is the number of its keys. */
  lemma {:induction false} DescendingCardinality(s: seq<Keycode>)
    requires Descending(s)
    ensures |Elements(s)| == |s|
  {
    if |s| > 0 {
      DescendingCardinality(s[1..]);
      assert Elements(s) == {s[0]} + Elements(s[1..]);
      assert s[0] !in Elements(s[1..]);
    }
  }

  /** A list has at most as many distinct keys as entries, and exactly as many iff it has no duplicates. */
  lemma {:induction false} ListCardinality(l: seq<Keycode>)
    ensures |Elements(l)| <= |l|
    ensures |Elements(l)| == |l| <==> NoDuplicates(l)
  {
    if |l| > 0 {
      ListCardinality(l[1..]);
      assert Elements(l) == {l[0]} + Elements(l[1..]);
      if l[0] in l[1..] {
        assert Elements(l) == Elements(l[1..]);
        var j :| 0 <= j < |l[1..]| && l[1..][j] == l[0];
        assert l[0] == l[j + 1];
      } else {
        assert NoDuplicates(l) <==> NoDuplicates(l[1..]) by {
          if NoDuplicates(l[1..]) {
            forall i, j | 0 <= i < j < |l| ensures l[i] != l[j] {
              if i > 0 {
                assert l[i] == l[1..][i - 1] && l[j] == l[1..][j - 1];
              }
            }
          }
        }
      }
    }
  }

  /** A descending vector is determined by its keys: it is the keys sorted in descending order. */
  lemma {:induction false} DescendingDeterminedByElements(a: seq<Keycode>, b: seq<Keycode>)
    requires Descending(a) && Descending(b)
    requires Elements(a) == Elements(b)
    ensures a == b
  {
    if |a| == 0 {
      assert |b| == 0 by {
        if |b| > 0 { ElementsCons(b); }
      }
    } else {
      assert a[0] in Elements(b);
      assert |b| > 0;
      assert b[0] in Elements(a);
      assert a[0] == b[0];
      assert Elements(a[1..]) == Elements(a) - {a[0]} by {
        assert Elements(a) == {a[0]} + Elements(a[1..]);
        assert a[0] !in Elements(a[1..]);
      }
      assert Elements(b[1..]) == Elements(b) - {b[0]} by {
        assert Elements(b) == {b[0]} + Elements(b[1..]);
        assert b[0] !in Elements(b[1..]);
      }
      DescendingDeterminedByElements(a[1..], b[1..]);
      assert a == [a[0]] + a[1..] && b == [b[0]] + b[1..];
    }
  }

  /** A combo built from a list depends only on the set of keys listed, not on their order or repetition. */
  lemma FromListOrderIrrelevant(l1: seq<Keycode>, l2: seq<Keycode>)
    requires Elements(l1) == Elements(l2)
    ensures InsertAll([], l1) == InsertAll([], l2)
  {
    DescendingDeterminedByElements(InsertAll([], l1), InsertAll([], l2));
  }

  /**
   * Inserting a list grows the combo by exactly the list's length iff the
   * list has no repeated key and none of its keys was present.
   */
  lemma {:induction false} InsertAllGrowth(s: seq<Keycode>, list: seq<Keycode>)
    requires Descending(s)
    ensures |InsertAll(s, list)| == |s| + |list| <==> NoDuplicates(list) && Elements(list) !! Elements(s)
  {
    var r := InsertAll(s, list);
    DescendingCardinality(s);
    DescendingCardinality(r);
    ListCardinality(list);
    var es, el := Elements(s), Elements(list);
    assert |es + el| + |es * el| == |es| + |el|;
    assert es * el == {} <==> es !! el;
  }

  /** `operator==`: `std::equal` over the left combo's range, compared with the start of the right one. */
  function Equal(lhs: seq<Keycode>, rhs: seq<Keycode>): (r: bool)
    requires |lhs| <= |rhs|
    ensures r <==> lhs == rhs[..|lhs|]
  {
    if |lhs| == 0 then true
    else
      assert lhs == [lhs[0]] + lhs[1..] && rhs[..|lhs|] == [rhs[0]] + rhs[1..][..|lhs| - 1];
      lhs[0] == rhs[0] && Equal(lhs[1..], rhs[1..])
  }

  /** `operator!=`: the negation of `operator==`. */
  function NotEqual(lhs: seq<Keycode>, rhs: seq<Keycode>): (r: bool)
    requires |lhs| <= |rhs|
    ensures r <==> lhs != rhs[..|lhs|]
  {
    !Equal(lhs, rhs)
  }

  /** The lexicographic order, stated directly: a proper prefix, or a smaller key after a common prefix. */
  ghost predicate Lexicographic(lhs: seq<Keycode>, rhs: seq<Keycode>) {
    exists k | 0 <= k <= |lhs| && k < |rhs| :: lhs[..k] == rhs[..k] && (k == |lhs| || lhs[k] < rhs[k])
  }

  /**
   * `operator<`: `std::lexicographical_compare`, walking both combos from
   * the front; it holds exactly in the lexicographic order.
   */
  function Less(lhs: seq<Keycode>, rhs: seq<Keycode>): (r: bool)
    ensures r <==> Lexicographic(lhs, rhs)
  {
    if |rhs| == 0 then false
    else if |lhs| == 0 then
      assert lhs[..0] == rhs[..0];
      true
    else if lhs[0] < rhs[0] then
      assert lhs[..0] == rhs[..0];
      true
    else if rhs[0] < lhs[0] then
      LexicographicHead(lhs, rhs);
      false
    else
      var r := Less(lhs[1..], rhs[1..]);
      LexicographicTail(lhs, rhs);
      r
  }

  /** After an equal first key, the order is decided by the rest. */
  lemma LexicographicTail(lhs: seq<Keycode>, rhs: seq<Keycode>)
    requires |lhs| > 0 && |rhs| > 0 && lhs[0] == rhs[0]
    ensures Lexicographic(lhs, rhs) <==> Lexicographic(lhs[1..], rhs[1..])
  {
    if Lexicographic(lhs[1..], rhs[1..]) {
      var k :| 0 <= k <= |lhs[1..]| && k < |rhs[1..]| && lhs[1..][..k] == rhs[1..][..k]
               && (k == |lhs[1..]| || lhs[1..][k] < rhs[1..][k]);
      assert lhs[..k + 1] == [lhs[0]] + lhs[1..][..k];
      assert rhs[..k + 1] == [rhs[0]] + rhs[1..][..k];
    }
    if Lexicographic(lhs, rhs) {
      var k :| 0 <= k <= |lhs| && k < |rhs| && lhs[..k] == rhs[..k] && (k == |lhs| || lhs[k] < rhs[k]);
      assert k > 0;
      assert lhs[1..][..k - 1] == lhs[..k][1..] && rhs[1..][..k - 1] == rhs[..k][1..];
      assert Lexicographic(lhs[1..], rhs[1..]);
    }
  }

  /** Of two non-empty combos in lexicographic order, the first key of the left one is not the larger. */
  lemma LexicographicHead(lhs: seq<Keycode>, rhs: seq<Keycode>)
    requires |lhs| > 0 && |rhs| > 0
    ensures Lexicographic(lhs, rhs) ==> lhs[0] <= rhs[0]
  {
    if Lexicographic(lhs, rhs) {
      var k :| 0 <= k <= |lhs| && k < |rhs| && lhs[..k] == rhs[..k] && (k == |lhs| || lhs[k] < rhs[k]);
      if k > 0 {
        assert lhs[..k][0] == rhs[..k][0];
      }
    }
  }

  /** `operator>=`: the negation of `operator<`. */
  function GreaterOrEqual(lhs: seq<Keycode>, rhs: seq<Keycode>): (r: bool)
    ensures r <==> !Lexicographic(lhs, rhs)
  {
    !Less(lhs, rhs)
  }

  /** Three keys, listed in any order and any number of times, come out sorted in descending order. */
  lemma ThreeKeyCombo(x: Keycode, y: Keycode, z: Keycode, list: seq<Keycode>)
    requires x > y > z && Elements(list) == {x, y, z}
    ensures InsertAll([], list) == [x, y, z]
  {
    assert Descending([x, y, z]);
    assert Elements(list) == Elements([x, y, z]);
    DescendingDeterminedByElements(InsertAll([], list), [x, y, z]);
  }

  /**
   * The combos {CTRL_L, ALT_L, C} and {CTRL_L, ALT_L, D} are stored as
   * [ALT_L, CTRL_L, C] and [ALT_L, CTRL_L, D]: each equals itself, they
   * differ, and the one ending in C orders first.
   */
  lemma ComboComparisonExample()
    ensures InsertAll([], [CTRL_L, ALT_L, C]) == [ALT_L, CTRL_L, C]
    ensures InsertAll([], [CTRL_L, ALT_L, D]) == [ALT_L, CTRL_L, D]
    ensures Equal([ALT_L, CTRL_L, C], [ALT_L, CTRL_L, C])
    ensures NotEqual([ALT_L, CTRL_L, C], [ALT_L, CTRL_L, D]) && NotEqual([ALT_L, CTRL_L, D], [ALT_L, CTRL_L, C])
    ensures GreaterOrEqual([ALT_L, CTRL_L, C], [ALT_L, CTRL_L, C])
    ensures Less([ALT_L, CTRL_L, C], [ALT_L, CTRL_L, D])
  {
    assert Elements([CTRL_L, ALT_L, C]) == {ALT_L, CTRL_L, C};
    assert Elements([CTRL_L, ALT_L, D]) == {ALT_L, CTRL_L, D};
    ThreeKeyCombo(ALT_L, CTRL_L, C, [CTRL_L, ALT_L, C]);
    ThreeKeyCombo(ALT_L, CTRL_L, D, [CTRL_L, ALT_L, D]);
    LessIsStrict([ALT_L, CTRL_L, C], [ALT_L, CTRL_L, C]);
  }

  /** `<` is a strict order on combos: irreflexive and asymmetric. */
  lemma {:induction false} LessIsStrict(a: seq<Keycode>, b: seq<Keycode>)
    ensures !Less(a, a)
    ensures Less(a, b) ==> !Less(b, a)
  {
    if |a| > 0 && |b| > 0 && a[0] == b[0] {
      LessIsStrict(a[1..], b[1..]);
    } else if |a| > 0 {
      LessIsStrict(a[1..], a[1..]);
    }
  }

  /**
   * `operator==` as written: a combo equals every longer combo that starts
   * with its keys, e.g. {D} == {C, D}, although the two hold different keys.
   */
  lemma EqualAcceptsLongerRight(lhs: seq<Keycode>, rhs: seq<Keycode>)
    requires |lhs| < |rhs| && lhs == rhs[..|lhs|]
    ensures Equal(lhs, rhs) && lhs != rhs
    ensures Elements(lhs) != Elements(rhs) || !Descending(rhs)
  {
    if Descending(rhs) {
      assert rhs[|lhs|] in Elements(rhs);
      assert forall i | 0 <= i < |lhs| :: lhs[i] == rhs[i] && rhs[i] > rhs[|lhs|];
    }
  }

  /** The combos {D} and {C, D}, stored as [D] and [D, C], compare equal. */
  lemma EqualComboCounterexample()
    ensures Descending([D, C]) && InsertAll([], [C, D]) == [D, C]
    ensures Equal([D], [D, C]) && Elements([D]) != Elements([D, C])
  {
    DescendingDeterminedByElements(InsertAll([], [C, D]), [D, C]);
    EqualAcceptsLongerRight([D], [D, C]);
  }

  /** Combo equality as evidently intended: the same size and `std::equal` over it. */
  function SameCombo(lhs: seq<Keycode>, rhs: seq<Keycode>): (r: bool)
    ensures r <==> lhs == rhs
  {
    |lhs| == |rhs| && Equal(lhs, rhs)
  }

  /** Two combos are the same exactly when they hold the same keys. */
  lemma SameComboIffSameKeys(a: seq<Keycode>, b: seq<Keycode>)
    requires Descending(a) && Descending(b)
    ensures SameCombo(a, b) <==> Elements(a) == Elements(b)
  {
    if Elements(a) == Elements(b) {
      DescendingDeterminedByElements(a, b);
    }
  }

  /** `<` is total on combos: of `a < b`, `b < a` and `a == b` exactly one holds. */
  lemma {:induction false} LessIsTotal(a: seq<Keycode>, b: seq<Keycode>)
    ensures Less(a, b) || Less(b, a) || SameCombo(a, b)
    ensures SameCombo(a, b) ==> !Less(a, b) && !Less(b, a)
  {
    if |a| > 0 && |b| > 0 && a[0] == b[0] {
      LessIsTotal(a[1..], b[1..]);
      if SameCombo(a[1..], b[1..]) {
        assert a == [a[0]] + a[1..] && b == [b[0]] + b[1..];
      }
    }
    if SameCombo(a, b) {
      LessIsStrict(a, a);
    }
  }

  /** `key_combo`: the set of keys in a `flat_set` ordered by `std::greater`. */
  class KeyCombo {
    var keys: seq<Keycode>

    ghost predicate Valid()
      reads this
    {
      Descending(keys)
    }

    /** `key_combo()`: the empty combo. */
    constructor ()
      ensures Valid() && keys == []
    {
      keys := [];
    }

    /** `key_combo(initializer_list)`: the listed keys, deduplicated, in descending order. */
    constructor FromList(list: seq<Keycode>)
      ensures Valid() && keys == InsertAll([], list)
      ensures Elements(keys) == Elements(list)
    {
      keys := InsertAll([], list);
    }

    /** `size()`: the number of keys held, each counted once. */
    function Size(): (n: nat)
      reads this
      requires Valid()
      ensures n == |Elements(keys)|
    {
      DescendingCardinality(keys);
      |keys|
    }

    /** `empty()`: holds iff `size() == 0`. */
    function Empty(): (r: bool)
      reads this
      requires Valid()
      ensures r <==> Size() == 0
    {
      keys == []
    }

    /** `add(key)`: true iff the key was absent; the key is present afterwards. */
    method Add(k: Keycode) returns (inserted: bool)
      requires Valid()
      modifies this
      ensures Valid() && keys == Insert(old(keys), k)
      ensures inserted <==> k !in old(keys)
      ensures Elements(keys) == Elements(old(keys)) + {k}
      ensures Size() == old(Size()) + (if inserted then 1 else 0)
    {
      inserted := k !in keys;
      keys := Insert(keys, k);
      assert k in Elements(keys);
    }

    /** `add(list)`: true iff the size grew by the list's length, i.e. all listed keys were new and distinct. */
    method AddList(list: seq<Keycode>) returns (allNew: bool)
      requires Valid()
      modifies this
      ensures Valid() && keys == InsertAll(old(keys), list)
      ensures Elements(keys) == Elements(old(keys)) + Elements(list)
      ensures allNew <==> NoDuplicates(list) && Elements(list) !! Elements(old(keys))
    {
      var sizeAfter := |keys| + |list|;
      InsertAllGrowth(keys, list);
      keys := InsertAll(keys, list);
      allNew := sizeAfter == |keys|;
    }

    /** `remove(key)`: true iff the key was present; afterwards it is absent and the other keys are unchanged. */
    method Remove(k: Keycode) returns (removed: bool)
      requires Valid()
      modifies this
      ensures Valid() && keys == Erase(old(keys), k)
      ensures removed <==> k in old(keys)
      ensures Elements(keys) == Elements(old(keys)) - {k}
    {
      if k !in keys {
        assert keys == Erase(keys, k) by {
          DescendingDeterminedByElements(keys, Erase(keys, k));
        }
        return false;
      }
      keys := Erase(keys, k);
      return true;
    }

    /** `clear()`. */
    method Clear()
      modifies this
      ensures Valid() && keys == [] && Empty()
    {
      keys := [];
    }
  }
}
