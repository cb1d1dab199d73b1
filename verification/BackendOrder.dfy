/** Sorting backends by a list of keys: values, the comparator, and the in-place stable sort. */
module BackendOrder {
  import opened Common
  import opened Bytes
  import opened Text
  import opened Sorting
  import opened RoutingTypes

  function MetaGet(m: map<string, string>, k: string): string {
    if k in m then m[k] else ""
  }

  /** A key's value for one backend: its text, whether there is one, and its number. */
  datatype SortVal = SortVal(raw: string, ok: bool, num: Num)

  const MISSING := SortVal("", false, Fin(0.0))

  function RawValue(b: Backend, key: string): string {
    if key == "host" then b.host
    else if key == "port" then Itoa(b.port)
    else if key == "weight" then Itoa(b.weight)
    else if "label:" <= key then MetaGet(b.meta, "label." + TrimSpace(TrimPrefix(key, "label:")))
    else if "annotation:" <= key then MetaGet(b.meta, "annotation." + TrimSpace(TrimPrefix(key, "annotation:")))
    else if "counter:" <= key then MetaGet(b.meta, "counter." + TrimSpace(TrimPrefix(key, "counter:")))
    else MetaGet(b.meta, key)
  }

  /** numeric says whether the type hint normalizes to "number"; normalizing a hint twice, as the comparator's
      call does, changes nothing (Text.NormalizeIdempotent). */
  function SortValue(w: World, b: Backend, rawKey: string, numeric: bool): SortVal {
    var key := TrimSpace(rawKey);
    if key == "" then MISSING
    else if numeric && key == "port" then SortVal("", true, Fin(b.port as real))
    else if numeric && key == "weight" then SortVal("", true, Fin(b.weight as real))
    else
      var raw := RawValue(b, key);
      if raw == "" then MISSING
      else if numeric then
        match w.parseFloat(raw)
        case None => MISSING
        case Some(n) => SortVal("", true, n)
      else SortVal(raw, true, Fin(0.0))
  }

  /** How one key compares two values: Some(less) decides, None leaves it to the next key. */
  function KeyOutcome(numeric: bool, desc: bool, a: SortVal, b: SortVal): Option<bool> {
    if a.ok != b.ok then Some(a.ok)
    else if numeric then
      if !NumEq(a.num, b.num) then Some(if desc then NumLess(b.num, a.num) else NumLess(a.num, b.num)) else None
    else if a.raw != b.raw then Some(if desc then StrLess(b.raw, a.raw) else StrLess(a.raw, b.raw))
    else None
  }

  predicate IsDesc(k: SortKey) {
    Normalize(k.order) == "desc"
  }

  predicate IsNumeric(k: SortKey) {
    Normalize(k.kind) == "number"
  }

  function KeyValue(w: World, k: SortKey, b: Backend): SortVal {
    SortValue(w, b, k.key, IsNumeric(k))
  }

  predicate BackendLess(w: World, keys: seq<SortKey>, a: Backend, b: Backend) {
    if keys == [] then false
    else
      var k := keys[0];
      match KeyOutcome(IsNumeric(k), IsDesc(k), KeyValue(w, k, a), KeyValue(w, k, b))
      case Some(less) => less
      case None => BackendLess(w, keys[1..], a, b)
  }

  function Less(w: World, keys: seq<SortKey>): (Backend, Backend) -> bool {
    (a, b) => BackendLess(w, keys, a, b)
  }

  lemma {:induction false} NoKeysKeepOrder(w: World, s: seq<Backend>)
    ensures StableSort(Less(w, []), s) == s
  {
    if s != [] {
      NoKeysKeepOrder(w, s[..|s| - 1]);
      assert s == s[..|s| - 1] + [s[|s| - 1]];
    }
  }

  /** Sorts the slice it is given, in place. */
  method ApplySort(w: World, backends: array<Backend>, keys: seq<SortKey>)
    modifies backends
    ensures backends[..] == StableSort(Less(w, keys), old(backends[..]))
  {
    if |keys| == 0 {
      NoKeysKeepOrder(w, backends[..]);
      return;
    }
    InsertionSort(backends, Less(w, keys));
  }

  // ---------- the comparator as an order ----------

  lemma MissingOrOk(w: World, b: Backend, key: string, numeric: bool)
    ensures SortValue(w, b, key, numeric).ok || SortValue(w, b, key, numeric) == MISSING
  {
  }

  /** Asymmetry of one key needs no hypothesis. */
  lemma KeyOutcomeAsym(numeric: bool, desc: bool, a: SortVal, b: SortVal)
    ensures KeyOutcome(numeric, desc, a, b) == Some(true) ==> KeyOutcome(numeric, desc, b, a) == Some(false)
    ensures KeyOutcome(numeric, desc, a, b) == None ==> KeyOutcome(numeric, desc, b, a) == None
  {
    StrLessAsym(a.raw, b.raw);
    StrLessAsym(b.raw, a.raw);
  }

  /** Neither does that of the comparator: NaN can only break transitivity. */
  lemma {:induction false} BackendLessAsym(w: World, keys: seq<SortKey>, a: Backend, b: Backend)
    ensures BackendLess(w, keys, a, b) ==> !BackendLess(w, keys, b, a)
  {
    if keys != [] {
      var k := keys[0];
      KeyOutcomeAsym(IsNumeric(k), IsDesc(k), KeyValue(w, k, a), KeyValue(w, k, b));
      BackendLessAsym(w, keys[1..], a, b);
    }
  }

  /** Three present numbers, the middle one NaN. */
  predicate NaNBetween(numeric: bool, a: SortVal, b: SortVal, c: SortVal) {
    numeric && a.ok && b.ok && c.ok && b.num == NaN
  }

  /** What one key says of a and c it says by way of b, or ties all three, unless b is NaN. */
  lemma KeyOutcomeBetween(numeric: bool, desc: bool, a: SortVal, b: SortVal, c: SortVal)
    requires (a.ok || a == MISSING) && (b.ok || b == MISSING) && (c.ok || c == MISSING)
    requires KeyOutcome(numeric, desc, a, c) != Some(false)
    ensures || KeyOutcome(numeric, desc, a, b) == Some(true) || KeyOutcome(numeric, desc, b, c) == Some(true)
            || (KeyOutcome(numeric, desc, a, b) == KeyOutcome(numeric, desc, b, c) == KeyOutcome(numeric, desc, a, c) == None)
            || NaNBetween(numeric, a, b, c)
  {
    if !numeric {
      StrLessTotal(a.raw, b.raw);
      StrLessNegTrans(a.raw, b.raw, c.raw);
      StrLessNegTrans(c.raw, b.raw, a.raw);
      StrLessTotal(b.raw, c.raw);
    }
  }

  /** A key ties three backends. */
  predicate Ties(w: World, k: SortKey, x: Backend, y: Backend, z: Backend) {
    && KeyOutcome(IsNumeric(k), IsDesc(k), KeyValue(w, k, x), KeyValue(w, k, y)) == None
    && KeyOutcome(IsNumeric(k), IsDesc(k), KeyValue(w, k, y), KeyValue(w, k, z)) == None
    && KeyOutcome(IsNumeric(k), IsDesc(k), KeyValue(w, k, x), KeyValue(w, k, z)) == None
  }

  /** Where the leading keys tie x, y and z, the next is a number key with a value for each, NaN for y; and the comparator
      puts x before z. */
  predicate Breaks(w: World, keys: seq<SortKey>, x: Backend, y: Backend, z: Backend) {
    && keys != []
    && var k := keys[0];
       || (NaNBetween(IsNumeric(k), KeyValue(w, k, x), KeyValue(w, k, y), KeyValue(w, k, z)) && BackendLess(w, keys, x, z))
       || (Ties(w, k, x, y, z) && Breaks(w, keys[1..], x, y, z))
  }

  /** The comparator skips over y exactly where y breaks it. */
  lemma {:induction false} BreaksIff(w: World, keys: seq<SortKey>, x: Backend, y: Backend, z: Backend)
    ensures Breaks(w, keys, x, y, z) <==>
            BackendLess(w, keys, x, z) && !BackendLess(w, keys, x, y) && !BackendLess(w, keys, y, z)
  {
    if keys != [] {
      var k := keys[0];
      MissingOrOk(w, x, k.key, IsNumeric(k));
      MissingOrOk(w, y, k.key, IsNumeric(k));
      MissingOrOk(w, z, k.key, IsNumeric(k));
      BreaksIff(w, keys[1..], x, y, z);
      if KeyOutcome(IsNumeric(k), IsDesc(k), KeyValue(w, k, x), KeyValue(w, k, z)) != Some(false) {
        KeyOutcomeBetween(IsNumeric(k), IsDesc(k), KeyValue(w, k, x), KeyValue(w, k, y), KeyValue(w, k, z));
      }
    }
  }

  ghost predicate SomeNaNBreaks(w: World, keys: seq<SortKey>, s: seq<Backend>) {
    exists x, y, z :: x in s && y in s && z in s && Breaks(w, keys, x, y, z)
  }

  /** For any list of keys, the comparator is a strict weak order exactly when no NaN breaks it. */
  lemma {:induction false} StrictWeakIff(w: World, keys: seq<SortKey>, s: seq<Backend>)
    ensures StrictWeakOn(Less(w, keys), s) <==> !SomeNaNBreaks(w, keys, s)
  {
    var less := Less(w, keys);
    forall x, y | x in s && y in s && less(x, y)
      ensures !less(y, x)
    {
      BackendLessAsym(w, keys, x, y);
    }
    forall x, y, z | x in s && y in s && z in s
      ensures Breaks(w, keys, x, y, z) <==> less(x, z) && !less(x, y) && !less(y, z)
    {
      BreaksIff(w, keys, x, y, z);
    }
  }

  /** No value the keys look at is NaN. */
  ghost predicate NaNFree(w: World, keys: seq<SortKey>, b: Backend) {
    forall i :: 0 <= i < |keys| ==> KeyValue(w, keys[i], b).num != NaN
  }

  /** A backend none of whose values is NaN never breaks the comparator. */
  lemma {:induction false} NaNFreeNeverBreaks(w: World, keys: seq<SortKey>, x: Backend, y: Backend, z: Backend)
    requires NaNFree(w, keys, y)
    ensures !Breaks(w, keys, x, y, z)
  {
    if keys != [] {
      assert KeyValue(w, keys[0], y).num != NaN;
      assert NaNFree(w, keys[1..], y);
      NaNFreeNeverBreaks(w, keys[1..], x, y, z);
    }
  }

  /** Without NaN, any list of keys gives a strict weak order. */
  lemma {:induction false} LessIsStrictWeak(w: World, keys: seq<SortKey>, s: seq<Backend>)
    requires forall b :: b in s ==> NaNFree(w, keys, b)
    ensures StrictWeakOn(Less(w, keys), s)
  {
    StrictWeakIff(w, keys, s);
    forall x, y, z | x in s && y in s && z in s
      ensures !Breaks(w, keys, x, y, z)
    {
      NaNFreeNeverBreaks(w, keys, x, y, z);
    }
  }

  /** Under one key, a backend without a value comes after every backend with one, ascending or descending. */
  lemma MissingValuesLast(w: World, k: SortKey, rest: seq<SortKey>, a: Backend, b: Backend)
    requires KeyValue(w, k, a).ok && !KeyValue(w, k, b).ok
    ensures BackendLess(w, [k] + rest, a, b) && !BackendLess(w, [k] + rest, b, a)
  {
    assert ([k] + rest)[0] == k;
  }

  /** v does not belong after u in the direction of a key. */
  predicate InOrder(numeric: bool, desc: bool, u: SortVal, v: SortVal) {
    && (v.ok ==> u.ok)
    && (u.ok && v.ok && numeric ==> if desc then !NumLess(u.num, v.num) else !NumLess(v.num, u.num))
    && (u.ok && v.ok && !numeric ==> if desc then !StrLess(u.raw, v.raw) else !StrLess(v.raw, u.raw))
  }

  /** Sorted backends ascend, or descend, by the first key, and those without a value for it come last. */
  lemma {:induction false} SortedByFirstKey(w: World, keys: seq<SortKey>, s: seq<Backend>, i: nat, j: nat)
    requires keys != [] && i < j < |s| && forall b :: b in s ==> NaNFree(w, keys, b)
    ensures |StableSort(Less(w, keys), s)| == |s|
    ensures var t := StableSort(Less(w, keys), s);
            InOrder(IsNumeric(keys[0]), IsDesc(keys[0]), KeyValue(w, keys[0], t[i]), KeyValue(w, keys[0], t[j]))
  {
    LessIsStrictWeak(w, keys, s);
    SortedPair(Less(w, keys), s, i, j);
    var t := StableSort(Less(w, keys), s);
    FirstKeyInOrder(w, keys, t[i], t[j]);
  }

  lemma FirstKeyInOrder(w: World, keys: seq<SortKey>, u: Backend, v: Backend)
    requires keys != [] && !BackendLess(w, keys, v, u)
    ensures InOrder(IsNumeric(keys[0]), IsDesc(keys[0]), KeyValue(w, keys[0], u), KeyValue(w, keys[0], v))
  {
    var k := keys[0];
    OutcomeInOrder(IsNumeric(k), IsDesc(k), KeyValue(w, k, u), KeyValue(w, k, v));
  }

  lemma OutcomeInOrder(numeric: bool, desc: bool, u: SortVal, v: SortVal)
    requires KeyOutcome(numeric, desc, v, u) != Some(true)
    ensures InOrder(numeric, desc, u, v)
  {
    StrLessAsym(v.raw, v.raw);
  }

  // ---------- keys and directions by their texts ----------

  lemma PlainKeys()
    ensures TrimSpace("port") == "port" && TrimSpace("weight") == "weight" && TrimSpace("host") == "host"
    ensures "port" != "weight" && "port" != "host" && "weight" != "host" && "host" != "port"
  {
    NormalizePlain("port");
    NormalizePlain("weight");
    NormalizePlain("host");
    assert "port"[0] == 'p' && "weight"[0] == 'w' && "host"[0] == 'h';
  }

  /** The built-in keys read the backend's own fields. */
  lemma BuiltInKeys(w: World, b: Backend)
    ensures SortValue(w, b, "port", true) == SortVal("", true, Fin(b.port as real))
    ensures SortValue(w, b, "weight", true) == SortVal("", true, Fin(b.weight as real))
    ensures SortValue(w, b, "port", false).ok && SortValue(w, b, "port", false).raw == Itoa(b.port)
    ensures SortValue(w, b, "weight", false).ok && SortValue(w, b, "weight", false).raw == Itoa(b.weight)
    ensures SortValue(w, b, "host", false).ok == (b.host != "") && SortValue(w, b, "host", false).raw == b.host
  {
    PlainKeys();
    ItoaCharacters(b.port);
    ItoaCharacters(b.weight);
  }

  /** Any other key reads metadata: as it stands, or with the colon of "label:", "annotation:" and "counter:" made a dot. */
  lemma MetadataKeys(b: Backend, name: string)
    requires TrimSpace(name) == name
    ensures RawValue(b, "label:" + name) == MetaGet(b.meta, "label." + name)
    ensures RawValue(b, "annotation:" + name) == MetaGet(b.meta, "annotation." + name)
    ensures RawValue(b, "counter:" + name) == MetaGet(b.meta, "counter." + name)
    ensures name != "host" && name != "port" && name != "weight" && ':' !in name ==> RawValue(b, name) == MetaGet(b.meta, name)
  {
    PrefixedKey("label:", name);
    PrefixedKey("annotation:", name);
    PrefixedKey("counter:", name);
    assert "label:"[5] == ':' && "annotation:"[10] == ':' && "counter:"[7] == ':';
    assert ("label:" + name)[0] == 'l' && ("annotation:" + name)[0] == 'a' && ("counter:" + name)[0] == 'c';
    assert "annotation:"[0] == 'a' && "label:"[0] == 'l';
  }

  lemma PrefixedKey(prefix: string, name: string)
    requires |prefix| > 5 && ':' in prefix
    ensures prefix <= prefix + name && TrimPrefix(prefix + name, prefix) == name
    ensures prefix + name != "host" && prefix + name != "port" && prefix + name != "weight"
  {
    var i :| 0 <= i < |prefix| && prefix[i] == ':';
    assert (prefix + name)[i] == ':';
  }

  lemma Directions(key: string, kind: string)
    ensures IsDesc(SortKey(key, "desc", kind)) && !IsDesc(SortKey(key, "asc", kind)) && !IsDesc(SortKey(key, "", kind))
    ensures IsNumeric(SortKey(key, "", "number")) && !IsNumeric(SortKey(key, "", "string")) && !IsNumeric(SortKey(key, "", ""))
  {
    NormalizePlain("desc");
    NormalizePlain("asc");
    NormalizePlain("");
    KindTexts();
  }

  lemma KindTexts()
    ensures Normalize("number") == "number" && Normalize("string") == "string" && Normalize("") == "" && "string" != "number"
  {
    NormalizePlain("number");
    NormalizePlain("string");
    NormalizePlain("");
    assert "string"[0] == 's' && "number"[0] == 'n';
  }

  lemma PortKey(w: World, order: string, b: Backend)
    ensures KeyValue(w, SortKey("port", order, "number"), b) == SortVal("", true, Fin(b.port as real))
  {
    KindTexts();
    PlainKeys();
  }

  /** Sorting by a number that every backend has. */
  lemma {:induction false} SortedByNumber(w: World, k: SortKey, s: seq<Backend>, i: nat, j: nat)
    requires IsNumeric(k) && i < j < |s| && forall b :: KeyValue(w, k, b) == SortVal("", true, Fin(b.port as real))
    ensures var t := StableSort(Less(w, [k]), s);
            |t| == |s| && if IsDesc(k) then t[i].port >= t[j].port else t[i].port <= t[j].port
  {
    SortedByFirstKey(w, [k], s, i, j);
    var t := StableSort(Less(w, [k]), s);
    assert KeyValue(w, k, t[i]).num == Fin(t[i].port as real) && KeyValue(w, k, t[j]).num == Fin(t[j].port as real);
  }

  /** Sorted by port, ports rise with "asc" or no order and fall with "desc". */
  lemma {:induction false} SortedByPort(w: World, order: string, s: seq<Backend>, i: nat, j: nat)
    requires order == "" || order == "asc" || order == "desc"
    requires i < j < |s|
    ensures var t := StableSort(Less(w, [SortKey("port", order, "number")]), s);
            |t| == |s| && if order == "desc" then t[i].port >= t[j].port else t[i].port <= t[j].port
  {
    var k := SortKey("port", order, "number");
    Directions("port", "number");
    KindTexts();
    assert IsNumeric(k) && (IsDesc(k) <==> order == "desc");
    forall b: Backend
      ensures KeyValue(w, k, b) == SortVal("", true, Fin(b.port as real))
    {
      PortKey(w, order, b);
    }
    SortedByNumber(w, k, s, i, j);
  }

  /** Sorted by host as text, hosts rise in dictionary order with "asc" or no order and fall with "desc", empty ones last. */
  lemma {:induction false} SortedByHost(w: World, order: string, s: seq<Backend>, i: nat, j: nat)
    requires order == "" || order == "asc" || order == "desc"
    requires i < j < |s|
    ensures var t := StableSort(Less(w, [SortKey("host", order, "string")]), s);
            && |t| == |s| && (t[j].host != "" ==> t[i].host != "")
            && (t[j].host != "" ==> if order == "desc" then !StrLess(t[i].host, t[j].host) else !StrLess(t[j].host, t[i].host))
  {
    var k := SortKey("host", order, "string");
    Directions("host", "string");
    KindTexts();
    assert !IsNumeric(k) && (IsDesc(k) <==> order == "desc");
    SortedByFirstKey(w, [k], s, i, j);
    var t := StableSort(Less(w, [k]), s);
    BuiltInKeys(w, t[i]);
    BuiltInKeys(w, t[j]);
  }

  const BY_LOAD := SortKey("load", "", "number")

  function Loaded(host: GoString, load: string): Backend {
    Backend(host, 1, 0, map["load" := load])
  }

  lemma NumericLoad()
    ensures IsNumeric(BY_LOAD) && !IsDesc(BY_LOAD)
  {
    NormalizePlain("number");
    NormalizePlain("");
  }

  lemma NamedLoad()
    ensures TrimSpace("load") == "load" && "load" != "port" && "load" != "weight" && "load" != "host"
  {
    NormalizePlain("load");
    assert "load"[0] == 'l' && "port"[0] == 'p' && "host"[0] == 'h' && "weight"[0] == 'w';
  }

  lemma PlainLoad()
    ensures !("label:" <= "load") && !("annotation:" <= "load") && !("counter:" <= "load")
  {
  }

  lemma LoadValue(w: World, host: GoString, load: string, n: Num)
    requires load != "" && w.parseFloat(load) == Some(n)
    ensures KeyValue(w, BY_LOAD, Loaded(host, load)) == SortVal("", true, n)
  {
    NumericLoad();
    NamedLoad();
    PlainLoad();
    assert MetaGet(map["load" := load], "load") == load;
  }

  /** NaN between 2 and 1, under one ascending number key. */
  lemma NaNInTheMiddle(w: World, k: SortKey, a: Backend, b: Backend, c: Backend)
    requires IsNumeric(k) && !IsDesc(k)
    requires KeyValue(w, k, a) == SortVal("", true, Fin(2.0)) && KeyValue(w, k, b) == SortVal("", true, NaN)
    requires KeyValue(w, k, c) == SortVal("", true, Fin(1.0))
    ensures Breaks(w, [k], c, b, a) && !BackendLess(w, [k], b, a) && !BackendLess(w, [k], c, b)
  {
    assert [k][0] == k;
  }

  /** Loads 2, NaN and 1, as metadata may hold them: the sort by load leaves 2 in front of 1. */
  lemma {:induction false} NaNExample(w: World)
    requires w.parseFloat("1") == Some(Fin(1.0)) && w.parseFloat("2") == Some(Fin(2.0)) && w.parseFloat("NaN") == Some(NaN)
    ensures var s := [Loaded("a", "2"), Loaded("b", "NaN"), Loaded("c", "1")];
            SomeNaNBreaks(w, [BY_LOAD], s) && StableSort(Less(w, [BY_LOAD]), s) == s
  {
    var a, b, c := Loaded("a", "2"), Loaded("b", "NaN"), Loaded("c", "1");
    NumericLoad();
    LoadValue(w, "a", "2", Fin(2.0));
    LoadValue(w, "b", "NaN", NaN);
    LoadValue(w, "c", "1", Fin(1.0));
    NaNInTheMiddle(w, BY_LOAD, a, b, c);
    BreaksHere(w, [BY_LOAD], a, b, c);
    SortedAlready(Less(w, [BY_LOAD]), a, b, c);
  }

  lemma BreaksHere(w: World, keys: seq<SortKey>, a: Backend, b: Backend, c: Backend)
    requires Breaks(w, keys, c, b, a)
    ensures SomeNaNBreaks(w, keys, [a, b, c])
  {
    assert [a, b, c][0] == a && [a, b, c][1] == b && [a, b, c][2] == c;
  }

  lemma SortedAlready<T>(less: (T, T) -> bool, a: T, b: T, c: T)
    requires !less(b, a) && !less(c, b)
    ensures StableSort(less, [a, b, c]) == [a, b, c]
  {
    assert [a, b, c][..2] == [a, b] && [a, b][..1] == [a] && [a][..0] == [];
    assert StableSort(less, [a]) == [a];
    assert StableSort(less, [a, b]) == [a, b];
  }
}
