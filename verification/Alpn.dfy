/** The choice of ALPN protocols in the router's TLS setup: the client's "hytale/" offers, newest version first. */
module Alpn {
  import opened Common
  import opened Text
  import opened Sorting

  const PREFIX := "hytale/"

  const MAX_INT64 := 0x7FFF_FFFF_FFFF_FFFF

  /** strconv.Atoi: an optional sign, then digits, within 64 bits. */
  function Atoi(s: string): Option<int> {
    var digits := if s != "" && (s[0] == '+' || s[0] == '-') then s[1..] else s;
    if digits == "" || !AllDigits(digits) then None
    else
      var n: int := DigitsValue(digits);
      var v := if s[0] == '-' then -n else n;
      if -MAX_INT64 - 1 <= v <= MAX_INT64 then Some(v) else None
  }

  function ParseHytaleVersion(alpn: string): Option<int> {
    if !(PREFIX <= alpn) then None else Atoi(alpn[|PREFIX|..])
  }

  datatype Item = Item(proto: string, version: Option<int>)

  function MakeItem(proto: string): Item {
    Item(proto, ParseHytaleVersion(proto))
  }

  /** Items with a version come first, newest first; ties and the rest by protocol text, greatest first. */
  predicate ItemLess(a: Item, b: Item) {
    if a.version.Some? && b.version.Some? then
      if a.version.value != b.version.value then a.version.value > b.version.value else StrLess(b.proto, a.proto)
    else if a.version.Some? != b.version.Some? then a.version.Some?
    else StrLess(b.proto, a.proto)
  }

  predicate IsOffer(proto: string) {
    PREFIX <= proto
  }

  /** The first occurrence of every distinct "hytale/" offer, after trimming. */
  function Offers(offered: seq<string>): seq<Item> {
    if offered == [] then []
    else
      var t, p := Offers(offered[..|offered| - 1]), TrimSpace(offered[|offered| - 1]);
      if IsOffer(p) && MakeItem(p) !in t then t + [MakeItem(p)] else t
  }

  function Protos(items: seq<Item>): seq<string> {
    seq(|items|, i requires 0 <= i < |items| => items[i].proto)
  }

  function Selection(offered: seq<string>): seq<string> {
    Protos(StableSort(ItemLess, Offers(offered)))
  }

  /** The distinct trimmed offers, in the order they are first seen. */
  method CollectOffers(offered: seq<string>) returns (items: seq<Item>)
    ensures items == Offers(offered)
  {
    var seen: set<string> := {};
    items := [];
    for i := 0 to |offered|
      invariant items == Offers(offered[..i])
      invariant forall p :: IsOffer(p) ==> (p in seen <==> MakeItem(p) in items)
    {
      assert offered[..i + 1][..i] == offered[..i];
      var p := TrimSpace(offered[i]);
      if p != "" && p !in seen {
        seen := seen + {p};
        if IsOffer(p) {
          items := items + [MakeItem(p)];
        }
      }
    }
    assert offered[..|offered|] == offered;
  }

  method ListProtos(items: seq<Item>) returns (out: seq<string>)
    ensures out == Protos(items)
  {
    out := [];
    for i := 0 to |items|
      invariant out == Protos(items[..i])
    {
      out := out + [items[i].proto];
    }
    assert items[..|items|] == items;
  }

  method SelectHytaleALPN(offered: seq<string>) returns (r: seq<string>)
    ensures r == Selection(offered)
  {
    var items := CollectOffers(offered);
    var a := new Item[|items|](i requires 0 <= i < |items| => items[i]);
    assert a[..] == items;
    InsertionSort(a, ItemLess);
    r := ListProtos(a[..]);
  }

  // ---------- the comparator is a total order ----------

  lemma {:induction false} ItemLessAsym(a: Item, b: Item)
    ensures ItemLess(a, b) ==> !ItemLess(b, a)
  {
    StrLessAsym(a.proto, b.proto);
  }

  lemma {:induction false} ItemLessNegTrans(a: Item, b: Item, c: Item)
    ensures ItemLess(a, c) ==> ItemLess(a, b) || ItemLess(b, c)
  {
    StrLessNegTrans(c.proto, b.proto, a.proto);
  }

  lemma {:induction false} ItemLessTotal(a: Item, b: Item)
    requires a.proto != b.proto
    ensures ItemLess(a, b) || ItemLess(b, a)
  {
    StrLessTotal(a.proto, b.proto);
  }

  lemma {:induction false} ItemLessIsWeakOrder(s: seq<Item>)
    ensures StrictWeakOn(ItemLess, s)
  {
    forall x, y | x in s && y in s && ItemLess(x, y)
      ensures !ItemLess(y, x)
    {
      ItemLessAsym(x, y);
    }
    forall x, y, z | x in s && y in s && z in s && ItemLess(x, z)
      ensures ItemLess(x, y) || ItemLess(y, z)
    {
      ItemLessNegTrans(x, y, z);
    }
  }

  // ---------- what is selected ----------

  ghost predicate Offered(offered: seq<string>, proto: string) {
    exists k :: 0 <= k < |offered| && TrimSpace(offered[k]) == proto
  }

  lemma OfferedSnoc(init: seq<string>, last: string, proto: string)
    ensures Offered(init + [last], proto) <==> Offered(init, proto) || TrimSpace(last) == proto
  {
    var s := init + [last];
    if Offered(init, proto) {
      var k :| 0 <= k < |init| && TrimSpace(init[k]) == proto;
      assert TrimSpace(s[k]) == proto;
    }
    assert s[|init|] == last;
    if Offered(s, proto) {
      var k :| 0 <= k < |s| && TrimSpace(s[k]) == proto;
      assert k < |init| ==> TrimSpace(init[k]) == proto;
    }
  }

  lemma {:induction false} OffersExact(offered: seq<string>)
    ensures forall it :: it in Offers(offered) <==> IsOffer(it.proto) && it == MakeItem(it.proto) && Offered(offered, it.proto)
    ensures forall i, j :: 0 <= i < j < |Offers(offered)| ==> Offers(offered)[i] != Offers(offered)[j]
  {
    if offered != [] {
      var init, last := offered[..|offered| - 1], offered[|offered| - 1];
      OffersExact(init);
      assert offered == init + [last];
      forall it: Item
        ensures Offered(offered, it.proto) <==> Offered(init, it.proto) || TrimSpace(last) == it.proto
      {
        OfferedSnoc(init, last, it.proto);
      }
    }
  }

  lemma {:induction false} SortedItems(items: seq<Item>)
    requires forall i, j :: 0 <= i < j < |items| ==> items[i].proto != items[j].proto
    ensures forall it :: it in StableSort(ItemLess, items) <==> it in items
    ensures forall i, j :: 0 <= i < j < |StableSort(ItemLess, items)| ==>
              ItemLess(StableSort(ItemLess, items)[i], StableSort(ItemLess, items)[j])
  {
    var t := StableSort(ItemLess, items);
    ItemLessIsWeakOrder(items);
    SortMultiset(ItemLess, items);
    assert forall it :: it in t <==> it in multiset(t);
    assert forall it :: it in items <==> it in multiset(items);
    var p := SortOrder(ItemLess, items);
    forall i, j | 0 <= i < j < |t|
      ensures ItemLess(t[i], t[j])
    {
      assert Before(ItemLess, items, p[i], p[j]);
      ItemLessTotal(items[p[i]], items[p[j]]);
    }
  }

  /** The output, in strictly decreasing preference, and exactly the distinct trimmed "hytale/" offers. */
  lemma {:induction false} SelectionSorted(offered: seq<string>)
    ensures forall i, j :: 0 <= i < j < |Selection(offered)| ==>
              ItemLess(MakeItem(Selection(offered)[i]), MakeItem(Selection(offered)[j]))
    ensures forall p :: p in Selection(offered) <==> IsOffer(p) && Offered(offered, p)
  {
    var items := Offers(offered);
    var t := StableSort(ItemLess, items);
    OffersExact(offered);
    forall i, j | 0 <= i < j < |items|
      ensures items[i].proto != items[j].proto
    {
      assert items[i] in items && items[j] in items;
    }
    SortedItems(items);
    assert forall i :: 0 <= i < |t| ==> t[i] in t;
    forall q
      ensures q in Protos(t) <==> IsOffer(q) && Offered(offered, q)
    {
      ProtosMember(t, q);
      assert MakeItem(q).proto == q;
    }
  }

  lemma ProtosMember(t: seq<Item>, q: string)
    requires forall i :: 0 <= i < |t| ==> t[i] == MakeItem(t[i].proto)
    ensures q in Protos(t) <==> MakeItem(q) in t
  {
    if MakeItem(q) in t {
      var i :| 0 <= i < |t| && t[i] == MakeItem(q);
      assert Protos(t)[i] == q;
    }
    if q in Protos(t) {
      var i :| 0 <= i < |t| && Protos(t)[i] == q;
      assert t[i] == MakeItem(q);
    }
  }

  /** The choice depends on the set of trimmed offers only: no reordering or repetition changes it. */
  lemma {:induction false} SelectionDependsOnSet(a: seq<string>, b: seq<string>)
    requires forall p :: Offered(a, p) <==> Offered(b, p)
    ensures Selection(a) == Selection(b)
  {
    var s, t := Selection(a), Selection(b);
    SelectionSorted(a);
    SelectionSorted(b);
    var less := (p, q) => ItemLess(MakeItem(p), MakeItem(q));
    forall p, q | p in s && q in s && less(p, q)
      ensures !less(q, p)
    {
      ItemLessAsym(MakeItem(p), MakeItem(q));
    }
    IncreasingSame(less, s, t);
  }

  // ---------- newest first ----------

  /** Atoi on a number's digits, with the sign they stand behind. */
  lemma AtoiOfDigits(s: string, digits: string, v: int)
    requires digits != "" && AllDigits(digits)
    requires if v < 0 then s == "-" + digits && DigitsValue(digits) == -v else s == digits && DigitsValue(digits) == v
    ensures Atoi(s) == if -MAX_INT64 - 1 <= v <= MAX_INT64 then Some(v) else None
  {
    if v < 0 {
      assert s[0] == '-' && s[1..] == digits;
    } else {
      assert s[0] == digits[0];
    }
  }

  /** Atoi reads back every number that fits 64 bits, and no other. */
  lemma {:induction false} AtoiOfItoa(n: int)
    ensures Atoi(Itoa(n)) == if -MAX_INT64 - 1 <= n <= MAX_INT64 then Some(n) else None
  {
    var m := if n < 0 then -n else n;
    DigitsInverse(m);
    AtoiOfDigits(Itoa(n), Digits(m), n);
  }

  /** Text with anything but digits, behind one sign at most, is no number. */
  lemma AtoiRefuses(s: string, i: nat)
    requires i < |s| && !('0' <= s[i] <= '9') && (i > 0 || (s[0] != '+' && s[0] != '-') || |s| == 1)
    ensures Atoi(s) == None
  {
    var signed := s[0] == '+' || s[0] == '-';
    var digits := if signed then s[1..] else s;
    if |digits| == 0 {
      assert digits == "";
    } else {
      var k := if signed then i - 1 else i;
      assert digits[k] == s[i];
    }
  }

  /** The version of "hytale/n" is n. */
  lemma {:induction false} VersionIsSuffix(n: int)
    ensures ParseHytaleVersion("hytale/" + Itoa(n)) == if -MAX_INT64 - 1 <= n <= MAX_INT64 then Some(n) else None
  {
    var s := "hytale/" + Itoa(n);
    assert s[|PREFIX|..] == Itoa(n);
    AtoiOfItoa(n);
  }

  /** Versions never rise along the output, and texts without one stand behind those with one; texts with equal versions, or
      without, stand in decreasing order. */
  lemma {:induction false} NewestFirst(offered: seq<string>, i: nat, j: nat)
    requires i < j < |Selection(offered)|
    ensures var p, q := ParseHytaleVersion(Selection(offered)[i]), ParseHytaleVersion(Selection(offered)[j]);
            && (q.Some? ==> p.Some? && p.value >= q.value)
            && (p == q ==> StrLess(Selection(offered)[j], Selection(offered)[i]))
  {
    SelectionSorted(offered);
    var a, b := MakeItem(Selection(offered)[i]), MakeItem(Selection(offered)[j]);
    assert ItemLess(a, b);
  }
}
