/**
 * The table's sort order: the comparator behind `filteredProducts` and the
 * sorted copy of the product list it produces.
 */
module ProductSort {
  import opened Wrappers
  import opened JsText

  /** The properties a product row can be sorted by. */
  datatype Field = Id | Name | Description | Price | Quantity

  datatype Direction = Asc | Desc

  /**
   * A product as the list endpoint returns it. A JSON `null` is None; prices
   * are whole cents here.
   */
  datatype Item = Item(id: int, name: Option<string>, description: Option<string>, price: int, quantity: Option<int>)

  /** What the comparator compares: a number, or a lower-cased string. */
  datatype Key = Num(n: int) | Text(s: string)

  /** The fields compared as numbers: `id`, `price` and `quantity`. */
  predicate IsNumeric(f: Field) {
    f == Id || f == Price || f == Quantity
  }

  /**
   * The key of `item` under `f`: `Number(v)` for a numeric field, where
   * `Number(null)` is 0, and `String(v || "").toLowerCase()` for the others,
   * where a missing value becomes "".
   */
  function KeyOf(f: Field, item: Item): (k: Key)
    ensures k.Num? <==> IsNumeric(f)
    ensures f == Id ==> k == Num(item.id)
    ensures f == Price ==> k == Num(item.price)
    ensures f == Quantity ==> k == Num(item.quantity.GetOr(0))
    ensures f == Name ==> k == Text(ToLower(item.name.GetOr("")))
    ensures f == Description ==> k == Text(ToLower(item.description.GetOr("")))
  {
    match f
    case Id => Num(item.id)
    case Price => Num(item.price)
    case Quantity => Num(item.quantity.GetOr(0))
    case Name => Text(ToLower(item.name.GetOr("")))
    case Description => Text(ToLower(item.description.GetOr("")))
  }

  /** `a < b` on two keys of the same kind. */
  predicate KeyLess(a: Key, b: Key) {
    match (a, b)
    case (Num(x), Num(y)) => x < y
    case (Text(x), Text(y)) => LexLess(x, y)
    case _ => false
  }

  predicate SameKind(a: Key, b: Key) {
    a.Num? == b.Num?
  }

  lemma KeyLessAsymmetric(a: Key, b: Key)
    ensures !(KeyLess(a, b) && KeyLess(b, a))
  {
    if a.Text? && b.Text? {
      LexLessAsymmetric(a.s, b.s);
    }
  }

  lemma KeyLessTransitive(a: Key, b: Key, c: Key)
    requires KeyLess(a, b) && KeyLess(b, c)
    ensures KeyLess(a, c)
  {
    if a.Text? {
      LexLessTransitive(a.s, b.s, c.s);
    }
  }

  /** Two keys of one kind are equal or ordered one way or the other. */
  lemma KeyLessTotal(a: Key, b: Key)
    requires SameKind(a, b) && a != b
    ensures KeyLess(a, b) || KeyLess(b, a)
  {
    if a.Text? {
      LexLessTotal(a.s, b.s);
    }
  }

  /**
   * The comparator: -1, 1 or 0 as the key of `a` is below, above or equal to
   * that of `b`, with the signs swapped when the direction is descending.
   */
  function Compare(f: Field, dir: Direction, a: Item, b: Item): (c: int)
    ensures -1 <= c <= 1
  {
    var ka, kb := KeyOf(f, a), KeyOf(f, b);
    if KeyLess(ka, kb) then (if dir == Asc then -1 else 1)
    else if KeyLess(kb, ka) then (if dir == Asc then 1 else -1)
    else 0
  }

  /** Equal keys, and only equal keys, compare as 0. */
  lemma CompareZeroIffEqualKeys(f: Field, dir: Direction, a: Item, b: Item)
    ensures Compare(f, dir, a, b) == 0 <==> KeyOf(f, a) == KeyOf(f, b)
  {
    var ka, kb := KeyOf(f, a), KeyOf(f, b);
    if ka != kb {
      KeyLessTotal(ka, kb);
    } else {
      KeyLessAsymmetric(ka, kb);
    }
  }

  /** Swapping the arguments negates the result. */
  lemma CompareAntisymmetric(f: Field, dir: Direction, a: Item, b: Item)
    ensures Compare(f, dir, a, b) == -Compare(f, dir, b, a)
  {
    KeyLessAsymmetric(KeyOf(f, a), KeyOf(f, b));
  }

  /** The descending order is the ascending order read backwards. */
  lemma DescendingReversesAscending(f: Field, a: Item, b: Item)
    ensures Compare(f, Desc, a, b) == Compare(f, Asc, b, a)
  {
    KeyLessAsymmetric(KeyOf(f, a), KeyOf(f, b));
  }

  /** The comparator is consistent: "not after" is transitive, as a sort requires. */
  lemma CompareTransitive(f: Field, dir: Direction, a: Item, b: Item, c: Item)
    requires Compare(f, dir, a, b) <= 0 && Compare(f, dir, b, c) <= 0
    ensures Compare(f, dir, a, c) <= 0
  {
    var ka, kb, kc := KeyOf(f, a), KeyOf(f, b), KeyOf(f, c);
    KeyLessAsymmetric(ka, kc);
    if dir == Asc {
      // none of kb < ka, kc < kb holds, so ka <= kb <= kc
      if ka != kb { KeyLessTotal(ka, kb); }
      if kb != kc { KeyLessTotal(kb, kc); }
      if ka != kb && kb != kc { KeyLessTransitive(ka, kb, kc); }
      if KeyLess(kc, ka) { KeyLessAsymmetric(ka, kc); }
    } else {
      if ka != kb { KeyLessTotal(ka, kb); }
      if kb != kc { KeyLessTotal(kb, kc); }
      if ka != kb && kb != kc { KeyLessTransitive(kc, kb, ka); }
      if KeyLess(ka, kc) { KeyLessAsymmetric(ka, kc); }
    }
  }

  /** Every adjacent pair of `s` is in comparator order. */
  predicate Ordered(f: Field, dir: Direction, s: seq<Item>) {
    forall i :: 0 < i < |s| ==> Compare(f, dir, s[i - 1], s[i]) <= 0
  }

  /** `x` placed into the ordered list `s` before the first element it does not follow. */
  function Insert(f: Field, dir: Direction, x: Item, s: seq<Item>): (r: seq<Item>)
    requires Ordered(f, dir, s)
    ensures Ordered(f, dir, r)
    ensures multiset(r) == multiset(s) + multiset{x}
    ensures r[0] == x || (s != [] && r[0] == s[0])
  {
    if s == [] || Compare(f, dir, x, s[0]) <= 0 then [x] + s
    else
      CompareAntisymmetric(f, dir, x, s[0]);
      var tail := Insert(f, dir, x, s[1..]);
      assert s == [s[0]] + s[1..];
      [s[0]] + tail
  }

  /**
   * `filteredProducts`: a sorted copy of `products`. It is a permutation of
   * `products` and ordered by the comparator; the list it copies is a value
   * and keeps its own order. Among equal keys this reference order is one of
   * those the source's sort may produce.
   */
  function SortedView(products: seq<Item>, f: Field, dir: Direction): (v: seq<Item>)
    ensures multiset(v) == multiset(products)
    ensures Ordered(f, dir, v)
  {
    if products == [] then []
    else
      assert products == [products[0]] + products[1..];
      Insert(f, dir, products[0], SortedView(products[1..], f, dir))
  }

  /**
   * In an ordered list the keys never decrease when the direction is
   * ascending and never increase when it is descending.
   */
  lemma OrderedKeysMonotone(f: Field, dir: Direction, s: seq<Item>, i: int)
    requires Ordered(f, dir, s) && 0 < i < |s|
    ensures dir == Asc ==> KeyOf(f, s[i - 1]) == KeyOf(f, s[i]) || KeyLess(KeyOf(f, s[i - 1]), KeyOf(f, s[i]))
    ensures dir == Desc ==> KeyOf(f, s[i - 1]) == KeyOf(f, s[i]) || KeyLess(KeyOf(f, s[i]), KeyOf(f, s[i - 1]))
  {
    var a, b := KeyOf(f, s[i - 1]), KeyOf(f, s[i]);
    assert Compare(f, dir, s[i - 1], s[i]) <= 0;
    if a != b {
      KeyLessTotal(a, b);
    }
  }

  /** Order between neighbours extends to every pair: an earlier element never follows a later one. */
  lemma {:induction false} OrderedPairwise(f: Field, dir: Direction, s: seq<Item>, i: int, j: int)
    requires Ordered(f, dir, s) && 0 <= i < j < |s|
    ensures Compare(f, dir, s[i], s[j]) <= 0
  {
    if i + 1 < j {
      OrderedPairwise(f, dir, s, i, j - 1);
      CompareTransitive(f, dir, s[i], s[j - 1], s[j]);
    }
  }

  /** The keys of `s` under `f`, in order. */
  function Keys(f: Field, s: seq<Item>): (ks: seq<Key>)
    ensures |ks| == |s|
  {
    seq(|s|, i requires 0 <= i < |s| => KeyOf(f, s[i]))
  }

  /** Dropping one element from an ordered list leaves it ordered. */
  lemma OrderedRemove(f: Field, dir: Direction, s: seq<Item>, j: int)
    requires Ordered(f, dir, s) && 0 <= j < |s|
    ensures Ordered(f, dir, s[..j] + s[j + 1..])
  {
    var r := s[..j] + s[j + 1..];
    forall i | 0 < i < |r|
      ensures Compare(f, dir, r[i - 1], r[i]) <= 0
    {
      if i == j {
        OrderedPairwise(f, dir, s, j - 1, j + 1);
      } else if i < j {
        assert r[i - 1] == s[i - 1] && r[i] == s[i];
      } else {
        assert r[i - 1] == s[i] && r[i] == s[i + 1];
      }
    }
  }

  /** In an ordered list, everything between two elements with equal keys has that key too. */
  lemma KeysBetweenEqual(f: Field, dir: Direction, s: seq<Item>, i: int, j: int)
    requires Ordered(f, dir, s) && 0 <= i <= j < |s|
    requires KeyOf(f, s[0]) == KeyOf(f, s[j])
    ensures KeyOf(f, s[i]) == KeyOf(f, s[0])
  {
    if 0 < i {
      OrderedPairwise(f, dir, s, 0, i);
      if i < j {
        OrderedPairwise(f, dir, s, i, j);
      }
      assert Compare(f, dir, s[i], s[0]) == Compare(f, dir, s[i], s[j]);
      CompareAntisymmetric(f, dir, s[0], s[i]);
      CompareZeroIffEqualKeys(f, dir, s[0], s[i]);
    }
  }

  /** Removing an element whose key equals the first's leaves the keys of the list without its head. */
  lemma KeysAfterRemoval(f: Field, dir: Direction, b: seq<Item>, j: int)
    requires Ordered(f, dir, b) && 0 <= j < |b|
    requires KeyOf(f, b[0]) == KeyOf(f, b[j])
    ensures Keys(f, b[1..]) == Keys(f, b[..j] + b[j + 1..])
  {
    var rest := b[..j] + b[j + 1..];
    forall i | 0 <= i < |rest| ensures Keys(f, b[1..])[i] == Keys(f, rest)[i] {
      if i < j {
        KeysBetweenEqual(f, dir, b, i, j);
        KeysBetweenEqual(f, dir, b, i + 1, j);
        assert rest[i] == b[i];
      } else {
        assert rest[i] == b[i + 1];
      }
    }
  }

  /** Two ordered permutations of one non-empty list start with the same key. */
  lemma FirstKeysAgree(f: Field, dir: Direction, a: seq<Item>, b: seq<Item>, j: int)
    requires Ordered(f, dir, a) && Ordered(f, dir, b) && multiset(a) == multiset(b)
    requires 0 <= j < |b| && b[j] == a[0]
    ensures KeyOf(f, a[0]) == KeyOf(f, b[0])
  {
    assert b[0] in multiset(a) by {
      assert b[0] in multiset(b);
    }
    var k :| 0 <= k < |a| && a[k] == b[0];
    if j > 0 { OrderedPairwise(f, dir, b, 0, j); }
    if k > 0 { OrderedPairwise(f, dir, a, 0, k); }
    CompareAntisymmetric(f, dir, a[0], b[0]);
    CompareZeroIffEqualKeys(f, dir, a[0], b[0]);
  }

  /**
   * Any two ordered permutations of one list have the same keys position by
   * position: the comparator fixes the order up to the placement of items
   * with equal keys.
   */
  lemma {:induction false} OrderedPermutationsAgreeOnKeys(f: Field, dir: Direction, a: seq<Item>, b: seq<Item>)
    requires Ordered(f, dir, a) && Ordered(f, dir, b) && multiset(a) == multiset(b)
    ensures Keys(f, a) == Keys(f, b)
    decreases |a|
  {
    if a == [] {
      assert |b| == |multiset(b)| == 0;
      return;
    }
    assert a[0] in multiset(b) by {
      assert a[0] in multiset(a);
    }
    var j :| 0 <= j < |b| && b[j] == a[0];
    FirstKeysAgree(f, dir, a, b, j);
    var rest := b[..j] + b[j + 1..];
    OrderedRemove(f, dir, b, j);
    RemoveMatchingHead(a, b, j);
    OrderedPermutationsAgreeOnKeys(f, dir, a[1..], rest);
    KeysAfterRemoval(f, dir, b, j);
    KeysCons(f, a);
    KeysCons(f, b);
  }

  lemma RemoveMatchingHead(a: seq<Item>, b: seq<Item>, j: int)
    requires multiset(a) == multiset(b) && 0 <= j < |b| && a != [] && b[j] == a[0]
    ensures multiset(b[..j] + b[j + 1..]) == multiset(a[1..])
  {
    assert b == b[..j] + [b[j]] + b[j + 1..];
    assert multiset(b) == multiset(b[..j]) + multiset{b[j]} + multiset(b[j + 1..]);
    assert multiset(b[..j] + b[j + 1..]) == multiset(b[..j]) + multiset(b[j + 1..]);
    assert a == [a[0]] + a[1..];
    assert multiset(a) == multiset{a[0]} + multiset(a[1..]);
    assert multiset(a[1..]) == multiset(a) - multiset{a[0]};
    assert multiset(b[..j] + b[j + 1..]) == multiset(b) - multiset{b[j]};
  }

  lemma KeysCons(f: Field, s: seq<Item>)
    requires s != []
    ensures Keys(f, s) == [KeyOf(f, s[0])] + Keys(f, s[1..])
  {
  }

  /**
   * Whatever ordered permutation the source's sort returns, its keys are
   * those of SortedView, position by position.
   */
  lemma AnyOrderedCopyMatchesView(products: seq<Item>, f: Field, dir: Direction, v: seq<Item>)
    requires multiset(v) == multiset(products) && Ordered(f, dir, v)
    ensures Keys(f, v) == Keys(f, SortedView(products, f, dir))
  {
    OrderedPermutationsAgreeOnKeys(f, dir, v, SortedView(products, f, dir));
  }
}
