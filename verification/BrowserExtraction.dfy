/**
 The extraction part of the browser agent: merging what the model extracts into a
 store, the cheap signature by which the loop detects progress, and the streak that
 stops a run which no longer makes any.
 */
module BrowserExtraction {
  import opened Common
  import opened PyStrings

  /** JSON values up to Python's ==: numbers and booleans are one kind, and an object is its
      items sorted by key, since dict equality ignores order. */
  datatype Json = Null | Num(n: int) | Str(s: string) | List(items: seq<Json>) | Obj(entries: seq<(string, Json)>)

  // ------------------------------------------------------------- hashable keys

  /** What `_hashable` returns: the value itself, or a tuple. A leaf may hold an unhashable
      value when a dict has one inside. */
  datatype Key = Leaf(v: Json) | Tuple(parts: seq<Key>)

  function KeyOf(v: Json): (k: Key)
    decreases v
  {
    match v
    case List(items) => Tuple(seq(|items|, i requires 0 <= i < |items| => KeyOf(items[i])))
    case Obj(entries) =>
      Tuple(seq(|entries|, i requires 0 <= i < |entries| => Tuple([Leaf(Str(entries[i].0)), Leaf(entries[i].1)])))
    case _ => Leaf(v)
  }

  predicate Hashable(k: Key)
    decreases k
  {
    match k
    case Leaf(v) => !v.List? && !v.Obj?
    case Tuple(parts) => forall i :: 0 <= i < |parts| ==> Hashable(parts[i])
  }

  /** On everything that is not a list the key tells values apart. */
  lemma KeyInjectiveOffLists(a: Json, b: Json)
    requires !a.List? && !b.List?
    ensures KeyOf(a) == KeyOf(b) <==> a == b
  {
    if a.Obj? && b.Obj? && KeyOf(a) == KeyOf(b) {
      var x, y := KeyOf(a).parts, KeyOf(b).parts;
      assert |a.entries| == |x| == |y| == |b.entries|;
      forall i | 0 <= i < |a.entries| ensures a.entries[i] == b.entries[i] {
        assert x[i] == Tuple([Leaf(Str(a.entries[i].0)), Leaf(a.entries[i].1)]);
        assert y[i] == Tuple([Leaf(Str(b.entries[i].0)), Leaf(b.entries[i].1)]);
        assert x[i].parts[0] == y[i].parts[0] && x[i].parts[1] == y[i].parts[1];
      }
      assert a.entries == b.entries;
    }
  }

  /** The item a list needs in place of an object's entry to get the same key: a pair of the
      entry's name and a value that is neither a list nor an object. */
  predicate IsPair(item: Json, entry: (string, Json)) {
    item == List([Str(entry.0), entry.1]) && !entry.1.List? && !entry.1.Obj?
  }

  predicate SpellsOut(items: seq<Json>, entries: seq<(string, Json)>) {
    |items| == |entries| && forall i :: 0 <= i < |items| ==> IsPair(items[i], entries[i])
  }

  /** The values that share a key: equal ones, lists whose items do, and a list that spells out an object. */
  predicate Alike(a: Json, b: Json)
    decreases a
  {
    || a == b
    || (a.List? && b.List? && |a.items| == |b.items|
        && forall i :: 0 <= i < |a.items| ==> Alike(a.items[i], b.items[i]))
    || (a.List? && b.Obj? && SpellsOut(a.items, b.entries))
    || (a.Obj? && b.List? && SpellsOut(b.items, a.entries))
  }

  lemma ListKey(items: seq<Json>)
    ensures var k := KeyOf(List(items));
      k.Tuple? && |k.parts| == |items| && forall i :: 0 <= i < |items| ==> k.parts[i] == KeyOf(items[i])
  {
  }

  lemma ObjKey(entries: seq<(string, Json)>)
    ensures var k := KeyOf(Obj(entries));
      && k.Tuple? && |k.parts| == |entries|
      && forall i :: 0 <= i < |entries| ==> k.parts[i] == Tuple([Leaf(Str(entries[i].0)), Leaf(entries[i].1)])
  {
  }

  lemma LeafKey(v: Json, leaf: Json)
    ensures KeyOf(v) == Leaf(leaf) <==> v == leaf && !v.List? && !v.Obj?
  {
  }

  /** An item has the key of an object's entry exactly when it is that pair. */
  lemma PairKey(item: Json, entry: (string, Json))
    ensures KeyOf(item) == Tuple([Leaf(Str(entry.0)), Leaf(entry.1)]) <==> IsPair(item, entry)
  {
    hide KeyOf;
    match item {
      case List(items) =>
        ListKey(items);
        var parts := KeyOf(item).parts;
        if |items| == 2 {
          LeafKey(items[0], Str(entry.0));
          LeafKey(items[1], entry.1);
          assert items == [items[0], items[1]] && parts == [parts[0], parts[1]];
        } else {
          assert |parts| != |[Leaf(Str(entry.0)), Leaf(entry.1)]|;
        }
      case Obj(entries) =>
        ObjKey(entries);
        if |entries| == 2 {
          assert KeyOf(item).parts[0].Tuple?;
        }
      case _ =>
        LeafKey(item, item);
    }
  }

  lemma SpellsOutKey(items: seq<Json>, entries: seq<(string, Json)>)
    ensures KeyOf(List(items)) == KeyOf(Obj(entries)) <==> SpellsOut(items, entries)
  {
    hide KeyOf, IsPair;
    ListKey(items);
    ObjKey(entries);
    var x, y := KeyOf(List(items)).parts, KeyOf(Obj(entries)).parts;
    forall i | 0 <= i < |items| && |items| == |entries| ensures x[i] == y[i] <==> IsPair(items[i], entries[i]) {
      PairKey(items[i], entries[i]);
    }
  }

  /** Two values share a de-duplication key exactly when they are alike. */
  lemma {:induction false} KeysCollideExactly(a: Json, b: Json)
    ensures KeyOf(a) == KeyOf(b) <==> Alike(a, b)
    decreases a
  {
    hide KeyOf, SpellsOut;
    if a.List? && b.List? {
      ListKey(a.items);
      ListKey(b.items);
      forall i | 0 <= i < |a.items| && |a.items| == |b.items|
        ensures KeyOf(a.items[i]) == KeyOf(b.items[i]) <==> Alike(a.items[i], b.items[i])
      {
        KeysCollideExactly(a.items[i], b.items[i]);
      }
    } else if a.List? && b.Obj? {
      SpellsOutKey(a.items, b.entries);
    } else if a.Obj? && b.List? {
      SpellsOutKey(b.items, a.entries);
    } else {
      MixedKey(a, b);
    }
  }

  lemma MixedKey(a: Json, b: Json)
    requires !(a.List? && (b.List? || b.Obj?)) && !(a.Obj? && b.List?)
    ensures KeyOf(a) == KeyOf(b) <==> a == b
  {
    if !a.List? && !b.List? {
      KeyInjectiveOffLists(a, b);
    }
  }

  /** Two of them: empty containers, and a list of pairs like an object. */
  lemma ListsCollideWithObjects()
    ensures KeyOf(List([])) == KeyOf(Obj([]))
    ensures KeyOf(List([List([Str("a"), Null])])) == KeyOf(Obj([("a", Null)]))
  {
    SpellsOutKey([], []);
    SpellsOutKey([List([Str("a"), Null])], [("a", Null)]);
  }

  // ------------------------------------------------------------- merging

  predicate HasKey(items: seq<Json>, k: Key) {
    exists i :: 0 <= i < |items| && KeyOf(items[i]) == k
  }

  /** Append the new items one by one, skipping None and keys already present; an
      unhashable item raises. */
  function Merge(existing: seq<Json>, items: seq<Json>): (r: Option<seq<Json>>)
    decreases |items|
  {
    if items == [] then Some(existing)
    else if items[0] == Null then Merge(existing, items[1..])
    else if !Hashable(KeyOf(items[0])) then None
    else if HasKey(existing, KeyOf(items[0])) then Merge(existing, items[1..])
    else Merge(existing + [items[0]], items[1..])
  }

  /** No None, only hashable items, no two with the same key. */
  predicate CleanList(items: seq<Json>) {
    && (forall i :: 0 <= i < |items| ==> items[i] != Null && Hashable(KeyOf(items[i])))
    && (forall i, j :: 0 <= i < j < |items| ==> KeyOf(items[i]) != KeyOf(items[j]))
  }

  lemma CleanSnoc(items: seq<Json>, x: Json)
    requires CleanList(items) && x != Null && Hashable(KeyOf(x)) && !HasKey(items, KeyOf(x))
    ensures CleanList(items + [x])
  {
    hide KeyOf, Hashable;
    assert forall i :: 0 <= i < |items| ==> (items + [x])[i] == items[i];
  }

  /** A merge only appends, keeps the list clean, and leaves every non-None new item represented. */
  lemma {:induction false} MergeFacts(existing: seq<Json>, items: seq<Json>)
    requires CleanList(existing) && Merge(existing, items).Some?
    ensures var r := Merge(existing, items).value;
      && existing <= r && CleanList(r)
      && (forall i :: 0 <= i < |items| && items[i] != Null ==> HasKey(r, KeyOf(items[i])))
      && (forall i :: |existing| <= i < |r| ==> r[i] in items)
    decreases |items|
  {
    hide KeyOf, Hashable, CleanList;
    if items != [] {
      var x, rest := items[0], items[1..];
      if x == Null || HasKey(existing, KeyOf(x)) {
        MergeFacts(existing, rest);
        var r := Merge(existing, rest).value;
        if x != Null {
          var i :| 0 <= i < |existing| && KeyOf(existing[i]) == KeyOf(x);
          assert r[i] == existing[i];
        }
      } else {
        CleanSnoc(existing, x);
        MergeFacts(existing + [x], rest);
        var r := Merge(existing + [x], rest).value;
        assert r[|existing|] == (existing + [x])[|existing|] == x;
        assert r[..|existing|] == existing;
      }
    }
  }

  /** Some of the first k values is alike to x. */
  predicate SomeAlike(items: seq<Json>, k: nat, x: Json)
    requires k <= |items|
  {
    exists i :: 0 <= i < k && Alike(items[i], x)
  }

  /** Of the first k new items those that are not None and alike neither to an existing item nor
      to an earlier new one. */
  function Newcomers(existing: seq<Json>, items: seq<Json>, k: nat): (r: seq<Json>)
    requires k <= |items|
  {
    if k == 0 then []
    else
      var x := items[k - 1];
      Newcomers(existing, items, k - 1)
      + if x == Null || SomeAlike(existing, |existing|, x) || SomeAlike(items, k - 1, x) then [] else [x]
  }

  lemma {:induction false} MergeSnoc(existing: seq<Json>, items: seq<Json>, x: Json)
    ensures Merge(existing, items + [x])
            == match Merge(existing, items)
               case None => None
               case Some(r) => Merge(r, [x])
    decreases |items|
  {
    hide KeyOf, Hashable, HasKey;
    if items == [] {
      assert items + [x] == [x];
    } else {
      var y, rest := items[0], items[1..];
      assert (items + [x])[0] == y && (items + [x])[1..] == rest + [x];
      MergeSnoc(existing, rest, x);
      MergeSnoc(existing + [y], rest, x);
    }
  }

  lemma MergeOne(r: seq<Json>, x: Json)
    ensures Merge(r, [x]) == if x == Null then Some(r) else if !Hashable(KeyOf(x)) then None
                             else if HasKey(r, KeyOf(x)) then Some(r) else Some(r + [x])
  {
    hide KeyOf, Hashable, HasKey;
    var one := [x];
    assert one[1..] == [];
    assert Merge(r, []) == Some(r) && Merge(r + [x], []) == Some(r + [x]);
  }

  /** A key is in a merged list exactly when an existing item or a new one is alike. */
  lemma MergedKeys(existing: seq<Json>, items: seq<Json>, x: Json)
    requires CleanList(existing) && Merge(existing, items).Some? && x != Null
    ensures HasKey(Merge(existing, items).value, KeyOf(x))
            <==> SomeAlike(existing, |existing|, x) || SomeAlike(items, |items|, x)
  {
    hide KeyOf, CleanList, Alike, Merge;
    MergeFacts(existing, items);
    var r := Merge(existing, items).value;
    AlikeKeys(existing, x);
    AlikeKeys(items, x);
    NullKey(x);
    if HasKey(r, KeyOf(x)) {
      var i :| 0 <= i < |r| && KeyOf(r[i]) == KeyOf(x);
      if i < |existing| {
        assert existing[i] == r[i];
      } else {
        assert r[i] in items;
        var j :| 0 <= j < |items| && items[j] == r[i];
        assert KeyOf(items[j]) == KeyOf(x);
      }
    }
    if HasKey(existing, KeyOf(x)) {
      var i :| 0 <= i < |existing| && KeyOf(existing[i]) == KeyOf(x);
      assert r[i] == existing[i];
    }
  }

  lemma AlikeKeys(items: seq<Json>, x: Json)
    ensures HasKey(items, KeyOf(x)) <==> SomeAlike(items, |items|, x)
  {
    hide KeyOf, Alike;
    forall i | 0 <= i < |items| ensures KeyOf(items[i]) == KeyOf(x) <==> Alike(items[i], x) {
      KeysCollideExactly(items[i], x);
    }
  }

  lemma NullKey(x: Json)
    requires x != Null
    ensures KeyOf(x) != KeyOf(Null)
  {
  }

  /** What a merge drops: it raises exactly at an unhashable item, and otherwise a new item is left
      out exactly when it is None or alike to an item that was there or came before it. */
  lemma {:induction false} MergeDropsExactly(existing: seq<Json>, items: seq<Json>, k: nat)
    requires CleanList(existing) && k <= |items|
    ensures Merge(existing, items[..k]).Some?
            <==> forall i :: 0 <= i < k ==> items[i] == Null || Hashable(KeyOf(items[i]))
    ensures Merge(existing, items[..k]).Some? ==>
      Merge(existing, items[..k]).value == existing + Newcomers(existing, items, k)
  {
    hide KeyOf, Hashable, CleanList, Merge, HasKey, SomeAlike;
    if k == 0 {
      MergeNothing(existing);
      assert items[..0] == [] && existing + [] == existing;
    } else {
      var x := items[k - 1];
      MergeDropsExactly(existing, items, k - 1);
      assert items[..k] == items[..k - 1] + [x];
      MergeSnoc(existing, items[..k - 1], x);
      var before := Merge(existing, items[..k - 1]);
      if before.Some? {
        MergeOne(before.value, x);
        if x != Null {
          MergedKeys(existing, items[..k - 1], x);
          AlikePrefix(items, k - 1, x);
        }
        ConcatAssociative(existing, Newcomers(existing, items, k - 1), [x]);
        assert Newcomers(existing, items, k - 1) + [] == Newcomers(existing, items, k - 1);
      }
    }
  }

  lemma MergeNothing(existing: seq<Json>)
    ensures Merge(existing, []) == Some(existing)
  {
  }

  lemma AlikePrefix(items: seq<Json>, k: nat, x: Json)
    requires k <= |items|
    ensures SomeAlike(items[..k], k, x) <==> SomeAlike(items, k, x)
  {
    hide Alike;
    assert forall i :: 0 <= i < k ==> items[..k][i] == items[i];
  }

  // ------------------------------------------------------------- the store

  type Store = map<string, Json>

  function Existing(store: Store, field: string): seq<Json> {
    if field in store && store[field].List? then store[field].items else []
  }

  /** One field of a structured extract: lists accumulate, everything else overwrites. */
  function PutField(store: Store, field: string, value: Json): (r: Option<Store>) {
    if !value.List? then Some(store[field := value])
    else match Merge(Existing(store, field), value.items)
         case None => None
         case Some(merged) => Some(store[field := List(merged)])
  }

  /** The fields from the i-th on; None when one of them raises. */
  function PutFields(store: Store, data: seq<(string, Json)>, i: nat): (r: Option<Store>)
    requires i <= |data|
    decreases |data| - i
  {
    if i == |data| then Some(store)
    else match PutField(store, data[i].0, data[i].1)
         case None => None
         case Some(next) => PutFields(next, data, i + 1)
  }

  /** What the fields from the i-th on leave in the store, up to the first that raises. */
  function FieldsStored(store: Store, data: seq<(string, Json)>, i: nat): (r: Store)
    requires i <= |data|
    decreases |data| - i
  {
    if i == |data| || PutField(store, data[i].0, data[i].1).None? then store
    else FieldsStored(PutField(store, data[i].0, data[i].1).value, data, i + 1)
  }

  /** The pieces of a comma-separated value. */
  function SplitCommas(s: string): (parts: seq<string>)
    decreases |s|
  {
    var head := Before(s, ',');
    if |head| == |s| then [s] else [head] + SplitCommas(s[|head| + 1..])
  }

  function PutMarkers(store: Store, names: seq<string>, marker: string): (r: Store)
    decreases |names|
  {
    if names == [] then store
    else
      var field := Strip(names[0]);
      PutMarkers(if field == "" then store else store[field := Str(marker)], names[1..], marker)
  }

  datatype Extract = Extract(data: seq<(string, Json)>, value: string)

  function Record(store: Store, e: Extract, url: string): (r: Option<Store>) {
    if e.data != [] then PutFields(store, e.data, 0)
    else if e.value == "" then Some(store)
    else Some(PutMarkers(store, SplitCommas(e.value), "[extracted from " + url + "]"))
  }

  /** The inner loop over a list value. */
  method MergeItems(existing: seq<Json>, items: seq<Json>) returns (r: Option<seq<Json>>)
    ensures r == Merge(existing, items)
  {
    var merged := existing;
    for i := 0 to |items|
      invariant Merge(merged, items[i..]) == Merge(existing, items)
    {
      var item := items[i];
      assert items[i..][0] == item && items[i..][1..] == items[i + 1..];
      if item == Null {
        continue;
      }
      if !Hashable(KeyOf(item)) {
        return None;
      }
      if !HasKey(merged, KeyOf(item)) {
        merged := merged + [item];
      }
    }
    r := Some(merged);
  }

  /** Fields recorded before one that raises stay recorded. */
  method RecordExtraction(store: Store, e: Extract, url: string) returns (next: Store, raised: bool)
    ensures Record(store, e, url) == if raised then None else Some(next)
    ensures raised ==> next == FieldsStored(store, e.data, 0)
  {
    hide Merge, Strip;
    next, raised := store, false;
    if e.data != [] {
      for i := 0 to |e.data|
        invariant PutFields(next, e.data, i) == PutFields(store, e.data, 0)
        invariant FieldsStored(next, e.data, i) == FieldsStored(store, e.data, 0)
      {
        var (field, value) := e.data[i];
        if value.List? {
          var merged := MergeItems(Existing(next, field), value.items);
          if merged.None? {
            return next, true;
          }
          next := next[field := List(merged.value)];
        } else {
          next := next[field := value];
        }
      }
      return;
    }
    if e.value == "" {
      return;
    }
    var names := SplitCommas(e.value);
    var marker := "[extracted from " + url + "]";
    for i := 0 to |names|
      invariant PutMarkers(next, names[i..], marker) == PutMarkers(store, names, marker)
    {
      assert names[i..][0] == names[i] && names[i..][1..] == names[i + 1..];
      var field := Strip(names[i]);
      if field != "" {
        next := next[field := Str(marker)];
      }
    }
  }

  // ------------------------------------------------------------- the signature

  /** What the signature keeps of one field: a list's length and the key of its last item,
      anything else's key. */
  datatype Sig = ListSig(length: nat, last: Option<Key>) | ScalarSig(key: Key)

  function SigOf(v: Json): (s: Sig) {
    if v.List? then ListSig(|v.items|, if v.items == [] then None else Some(KeyOf(v.items[|v.items| - 1])))
    else ScalarSig(KeyOf(v))
  }

  function Signature(store: Store): (s: map<string, Sig>) {
    map f | f in store :: SigOf(store[f])
  }

  /** How one extract may change a field: not at all, from a list to a longer one by appending, or
      in any way when the old or the new value is not a list. */
  predicate Evolves(a: Json, b: Json) {
    a == b || (a.List? && b.List? && a.items <= b.items) || !a.List? || !b.List?
  }

  lemma EvolvedFieldSignature(a: Json, b: Json)
    requires Evolves(a, b)
    ensures SigOf(a) == SigOf(b) <==> a == b
  {
    if !a.List? && !b.List? {
      KeyInjectiveOffLists(a, b);
    }
    hide KeyOf;
    if a.List? && b.List? && |a.items| == |b.items| {
      assert a.items == b.items;
    }
  }

  predicate StoreEvolves(s: Store, t: Store) {
    s.Keys <= t.Keys && forall f :: f in s ==> Evolves(s[f], t[f])
  }

  lemma EvolvedSignature(s: Store, t: Store)
    requires StoreEvolves(s, t)
    ensures Signature(s) == Signature(t) <==> s == t
  {
    hide SigOf, Evolves;
    if Signature(s) == Signature(t) {
      assert s.Keys == Signature(s).Keys == Signature(t).Keys == t.Keys;
      forall f | f in s ensures s[f] == t[f] {
        assert Signature(s)[f] == Signature(t)[f];
        EvolvedFieldSignature(s[f], t[f]);
      }
      assert s == t;
    }
  }

  /** Every list in the store is clean. */
  predicate CleanStore(s: Store) {
    forall f :: f in s && s[f].List? ==> CleanList(s[f].items)
  }

  lemma PutFieldFacts(s: Store, field: string, value: Json)
    requires CleanStore(s) && PutField(s, field, value).Some?
    ensures var t := PutField(s, field, value).value;
      && CleanStore(t) && t.Keys == s.Keys + {field}
      && (forall f :: f in s && f != field ==> t[f] == s[f])
      && (field in s ==> Evolves(s[field], t[field]))
  {
    if value.List? {
      var old_ := Existing(s, field);
      assert CleanList(old_);
      MergeFacts(old_, value.items);
    }
    hide Merge, CleanList;
  }

  /** The fields of a dict are distinct, so each changes at most once. */
  lemma {:induction false} PutFieldsFacts(s: Store, data: seq<(string, Json)>, i: nat)
    requires i <= |data| && CleanStore(s) && PutFields(s, data, i).Some?
    requires forall j, k :: 0 <= j < k < |data| ==> data[j].0 != data[k].0
    ensures var t := PutFields(s, data, i).value;
      && CleanStore(t) && StoreEvolves(s, t)
      && (forall f :: f in s && (forall k :: i <= k < |data| ==> data[k].0 != f) ==> t[f] == s[f])
    decreases |data| - i
  {
    hide CleanStore, PutField, Evolves;
    if i < |data| {
      var (field, value) := data[i];
      var next := PutField(s, field, value).value;
      PutFieldFacts(s, field, value);
      PutFieldsFacts(next, data, i + 1);
      var t := PutFields(next, data, i + 1).value;
      assert t[field] == next[field];
      forall f | f in s ensures Evolves(s[f], t[f]) {
        if f != field {
          assert next[f] == s[f];
        }
      }
    } else {
      SameEvolves(s);
    }
  }

  lemma {:induction false} StoredStaysClean(s: Store, data: seq<(string, Json)>, i: nat)
    requires i <= |data| && CleanStore(s)
    ensures CleanStore(FieldsStored(s, data, i))
    decreases |data| - i
  {
    hide CleanStore, PutField;
    if i < |data| && PutField(s, data[i].0, data[i].1).Some? {
      PutFieldFacts(s, data[i].0, data[i].1);
      StoredStaysClean(PutField(s, data[i].0, data[i].1).value, data, i + 1);
    }
  }

  lemma SameEvolves(s: Store)
    ensures StoreEvolves(s, s)
  {
  }

  lemma {:induction false} PutMarkersFacts(s: Store, names: seq<string>, marker: string)
    requires CleanStore(s)
    ensures var t := PutMarkers(s, names, marker);
      CleanStore(t) && s.Keys <= t.Keys && forall f :: f in t ==> t[f] == Str(marker) || (f in s && t[f] == s[f])
    decreases |names|
  {
    hide CleanList, Strip;
    if names != [] {
      var field := Strip(names[0]);
      PutMarkersFacts(if field == "" then s else s[field := Str(marker)], names[1..], marker);
    }
  }

  /** One of the names, stripped, is this field. */
  predicate Marked(names: seq<string>, field: string) {
    field != "" && exists i :: 0 <= i < |names| && Strip(names[i]) == field
  }

  lemma MarkedStep(names: seq<string>, field: string)
    requires names != []
    ensures Marked(names, field) <==> (field != "" && Strip(names[0]) == field) || Marked(names[1..], field)
  {
    hide Strip;
    if Marked(names[1..], field) {
      var i :| 0 <= i < |names[1..]| && Strip(names[1..][i]) == field;
      assert Strip(names[i + 1]) == field;
    }
    if Marked(names, field) {
      var i :| 0 <= i < |names| && Strip(names[i]) == field;
      assert i > 0 ==> Strip(names[1..][i - 1]) == field;
    }
  }

  /** Every name in the list gets the marker, but for white space around it and unless it is blank;
      the other fields stay as they are. */
  lemma {:induction false} MarkersExactly(s: Store, names: seq<string>, marker: string)
    ensures var t := PutMarkers(s, names, marker);
      && (forall f :: f in t <==> f in s || Marked(names, f))
      && (forall f :: Marked(names, f) ==> t[f] == Str(marker))
      && (forall f :: f in s && !Marked(names, f) ==> t[f] == s[f])
    decreases |names|
  {
    hide Strip, Marked;
    if names == [] {
      assert forall f :: !Marked(names, f) by { NoneMarked(); }
    } else {
      var field := Strip(names[0]);
      var next := if field == "" then s else s[field := Str(marker)];
      MarkersExactly(next, names[1..], marker);
      forall f ensures Marked(names, f) <==> (f != "" && field == f) || Marked(names[1..], f) {
        MarkedStep(names, f);
      }
    }
  }

  lemma NoneMarked()
    ensures forall f :: !Marked([], f)
  {
  }

  /** What an extract without data does: each field it names gets a marker with the address of the
      page, and the others stay as they are. */
  lemma NamesEndMarked(s: Store, e: Extract, url: string, field: string)
    requires e.data == []
    ensures Record(s, e, url).Some?
    ensures var t, names := Record(s, e, url).value, SplitCommas(e.value);
      if Marked(names, field) then field in t && t[field] == Str("[extracted from " + url + "]")
      else (field in t <==> field in s) && (field in s ==> t[field] == s[field])
  {
    hide Strip, Marked, SplitCommas, PutMarkers;
    if e.value == "" {
      NothingNamed(field);
    } else {
      MarkersExactly(s, SplitCommas(e.value), "[extracted from " + url + "]");
    }
  }

  lemma NothingNamed(field: string)
    ensures !Marked(SplitCommas(""), field)
  {
    StripFacts("");
  }

  function WithCommas(parts: seq<string>): (s: string) {
    if parts == [] then "" else if |parts| == 1 then parts[0] else parts[0] + "," + WithCommas(parts[1..])
  }

  /** The pieces hold no comma, and with commas between them they are the text. */
  lemma {:induction false} SplitCommasExactly(s: string)
    ensures var parts := SplitCommas(s);
      parts != [] && WithCommas(parts) == s && forall i :: 0 <= i < |parts| ==> ',' !in parts[i]
    decreases |s|
  {
    var head := Before(s, ',');
    if |head| < |s| {
      var rest := SplitCommas(s[|head| + 1..]);
      SplitCommasExactly(s[|head| + 1..]);
      assert s == head + "," + s[|head| + 1..];
      assert SplitCommas(s) == [head] + rest && ([head] + rest)[1..] == rest;
    }
  }

  predicate DictFields(e: Extract) {
    forall j, k :: 0 <= j < k < |e.data| ==> e.data[j].0 != e.data[k].0
  }

  /** Field names of the extract from the i-th on. */
  predicate Named(data: seq<(string, Json)>, i: nat, field: string) {
    exists k :: i <= k < |data| && data[k].0 == field
  }

  /** How an extracted value ends up in its field: a list as the merge of the list that was there
      (or of none) with it, anything else as it is. */
  ghost predicate EndsAs(s: Store, t: Store, field: string, value: Json) {
    && field in t
    && if value.List?
       then t[field].List? && Existing(s, field) <= t[field].items
            && Merge(Existing(s, field), value.items) == Some(t[field].items)
       else t[field] == value
  }

  lemma PutEndsAs(s: Store, field: string, value: Json)
    requires CleanStore(s) && PutField(s, field, value).Some?
    ensures EndsAs(s, PutField(s, field, value).value, field, value)
  {
    hide Merge, CleanList;
    if value.List? {
      EmptyIsClean();
      MergeFacts(Existing(s, field), value.items);
    }
  }

  lemma EmptyIsClean()
    ensures CleanList([])
  {
  }

  lemma {:induction false} FieldsEndAs(s: Store, data: seq<(string, Json)>, i: nat)
    requires i <= |data| && CleanStore(s) && PutFields(s, data, i).Some?
    requires forall j, k :: 0 <= j < k < |data| ==> data[j].0 != data[k].0
    ensures var t := PutFields(s, data, i).value;
      && (forall k :: i <= k < |data| ==> EndsAs(s, t, data[k].0, data[k].1))
      && (forall f :: f in t <==> f in s || Named(data, i, f))
      && (forall f :: f in s && !Named(data, i, f) ==> t[f] == s[f])
    decreases |data| - i
  {
    hide CleanStore, PutField, Merge;
    if i < |data| {
      var (field, value) := data[i];
      var next := PutField(s, field, value).value;
      PutFieldFacts(s, field, value);
      PutEndsAs(s, field, value);
      FieldsEndAs(next, data, i + 1);
      var t := PutFields(next, data, i + 1).value;
      NamedStep(data, i);
      assert !Named(data, i + 1, field);
      forall k | i <= k < |data| ensures EndsAs(s, t, data[k].0, data[k].1) {
        if k > i {
          assert EndsAs(next, t, data[k].0, data[k].1) && data[k].0 != field;
          SameExisting(s, next, data[k].0);
        }
      }
    }
  }

  lemma SameExisting(s: Store, t: Store, field: string)
    requires (field in s <==> field in t) && (field in s ==> t[field] == s[field])
    ensures Existing(t, field) == Existing(s, field)
  {
  }

  lemma NamedStep(data: seq<(string, Json)>, i: nat)
    requires i < |data|
    ensures forall f :: Named(data, i, f) <==> f == data[i].0 || Named(data, i + 1, f)
  {
  }

  /** What one structured extract does to the store: a list value grows the field's list by
      appending (from nothing if it held none), any other value replaces the field, and fields
      it does not name stay as they are. */
  lemma ExtractEndsAs(s: Store, e: Extract, url: string)
    requires CleanStore(s) && DictFields(e) && e.data != [] && Record(s, e, url).Some?
    ensures var t := Record(s, e, url).value;
      && (forall k :: 0 <= k < |e.data| ==> EndsAs(s, t, e.data[k].0, e.data[k].1))
      && (forall f :: f in t <==> f in s || Named(e.data, 0, f))
      && (forall f :: f in s && !Named(e.data, 0, f) ==> t[f] == s[f])
  {
    hide CleanStore, EndsAs, PutFields, Named;
    FieldsEndAs(s, e.data, 0);
  }

  /** Lists in the store never hold duplicates or None, and a list that stays a list only grows by appending. */
  lemma RecordFacts(s: Store, e: Extract, url: string)
    requires CleanStore(s) && DictFields(e) && Record(s, e, url).Some?
    ensures CleanStore(Record(s, e, url).value) && StoreEvolves(s, Record(s, e, url).value)
  {
    hide CleanStore, PutFields, PutMarkers;
    if e.data != [] {
      PutFieldsFacts(s, e.data, 0);
    } else if e.value == "" {
      SameEvolves(s);
    } else {
      PutMarkersFacts(s, SplitCommas(e.value), "[extracted from " + url + "]");
    }
  }

  /** Progress detection is exact: an extract leaves the signature unchanged exactly when it
      leaves the whole store unchanged. */
  lemma ProgressIsExact(s: Store, e: Extract, url: string)
    requires CleanStore(s) && DictFields(e) && Record(s, e, url).Some?
    ensures Signature(s) == Signature(Record(s, e, url).value) <==> s == Record(s, e, url).value
  {
    RecordFacts(s, e, url);
    hide *;
    EvolvedSignature(s, Record(s, e, url).value);
  }

  // ------------------------------------------------------------- the run loop

  /** Where the browser or the progress callback raises around an extract that was recorded. */
  datatype Break = Nowhere | WhileReporting | WhileScrolling

  /** What the model does at one step; Breaks is any other exception of the step. */
  datatype Action = Done | Fail | Extracting(e: Extract, breaks: Break) | Acting | Breaks

  datatype Env = Env(action: nat -> Action, url: nat -> string)

  datatype Stop = SaidDone | SaidFail | AllFilled | NoProgress | MaxSteps | Raised

  /** One EXTRACT of a run: at which step, and the store before and after. */
  datatype Extraction = Extraction(step: nat, before: Store, after: Store)

  predicate Truthy(v: Json): (t: bool)
    ensures t <==> v != Null && v != Num(0) && v != Str("") && v != List([]) && v != Obj([])
  {
    match v
    case Null => false
    case Num(n) => n != 0
    case Str(s) => s != ""
    case List(items) => items != []
    case Obj(entries) => entries != []
  }

  predicate Filled(fields: seq<string>, store: Store) {
    fields != [] && forall i :: 0 <= i < |fields| ==> fields[i] in store && Truthy(store[fields[i]])
  }

  function InitialStore(fields: seq<string>): Store {
    map f | f in fields :: Null
  }

  predicate Unchanged(x: Extraction) { x.before == x.after }

  /** Entry i is the extract of its step, applied to the store the previous one left. */
  predicate Faithful(env: Env, start: Store, log: seq<Extraction>, i: nat)
    requires i < |log|
  {
    && env.action(log[i].step).Extracting?
    && Record(log[i].before, env.action(log[i].step).e, env.url(log[i].step)) == Some(log[i].after)
    && log[i].before == (if i == 0 then start else log[i - 1].after)
  }

  predicate Complete(env: Env, log: seq<Extraction>, n: nat) {
    && (forall i :: 0 <= i < |log| ==> log[i].step < n)
    && (forall i, j :: 0 <= i < j < |log| ==> log[i].step < log[j].step)
    && (forall k :: 0 <= k < n && env.action(k).Extracting? ==> exists i :: 0 <= i < |log| && log[i].step == k)
  }

  /** The log holds exactly the EXTRACTs among the first n steps, in order. */
  predicate IsLog(env: Env, start: Store, log: seq<Extraction>, n: nat) {
    Complete(env, log, n) && forall i :: 0 <= i < |log| ==> Faithful(env, start, log, i)
  }

  function StoreAfter(start: Store, log: seq<Extraction>): Store {
    if log == [] then start else log[|log| - 1].after
  }

  predicate ThreeUnchanged(log: seq<Extraction>, n: int) {
    3 <= n <= |log| && Unchanged(log[n - 1]) && Unchanged(log[n - 2]) && Unchanged(log[n - 3])
  }

  /** The streak counts the unchanged extracts at the end of the log. */
  predicate IsStreak(log: seq<Extraction>, streak: nat) {
    && streak <= |log|
    && (forall i :: |log| - streak <= i < |log| ==> Unchanged(log[i]))
    && (streak < |log| ==> !Unchanged(log[|log| - 1 - streak]))
  }

  datatype RunResult = RunResult(success: bool, steps: nat, store: Store, stop: Stop)

  /** What a run that raised in its last step returns: all it had recorded before, and of an
      extract in that step either everything or the fields before the raising one. */
  ghost predicate RaisedWith(env: Env, start: Store, log: seq<Extraction>, steps: nat, store: Store)
    requires steps > 0
  {
    || (IsLog(env, start, log, steps) && store == StoreAfter(start, log))
    || (IsLog(env, start, log, steps - 1)
        && match env.action(steps - 1)
           case Extracting(e, _) => store == FieldsStored(StoreAfter(start, log), e.data, 0)
           case _ => store == StoreAfter(start, log))
  }

  lemma RaisedInStep(env: Env, start: Store, log: seq<Extraction>, n: nat)
    requires IsLog(env, start, log, n)
    ensures match env.action(n)
      case Extracting(e, _) => RaisedWith(env, start, log, n + 1, FieldsStored(StoreAfter(start, log), e.data, 0))
      case _ => RaisedWith(env, start, log, n + 1, StoreAfter(start, log))
  {
    hide IsLog, StoreAfter, FieldsStored;
  }

  lemma RaisedAfterExtract(env: Env, start: Store, log: seq<Extraction>, n: nat)
    requires n > 0 && IsLog(env, start, log, n)
    ensures RaisedWith(env, start, log, n, StoreAfter(start, log))
  {
    hide IsLog, StoreAfter, FieldsStored;
  }

  lemma ExtendComplete(env: Env, log: seq<Extraction>, n: nat, x: Extraction)
    requires Complete(env, log, n) && x.step == n
    ensures Complete(env, log + [x], n + 1)
  {
    var more := log + [x];
    assert more[|log|] == x && forall i :: 0 <= i < |log| ==> more[i] == log[i];
    forall k | 0 <= k < n + 1 && env.action(k).Extracting? ensures exists i :: 0 <= i < |more| && more[i].step == k {
      if k == n {
        assert more[|log|].step == n;
      } else {
        var i :| 0 <= i < |log| && log[i].step == k;
        assert more[i].step == k;
      }
    }
  }

  lemma ExtendLog(env: Env, start: Store, log: seq<Extraction>, n: nat, x: Extraction)
    requires IsLog(env, start, log, n) && x.step == n && env.action(n).Extracting?
    requires x.before == StoreAfter(start, log)
    requires Record(x.before, env.action(n).e, env.url(n)) == Some(x.after)
    ensures IsLog(env, start, log + [x], n + 1)
  {
    hide Record, Complete;
    ExtendComplete(env, log, n, x);
    var more := log + [x];
    forall i | 0 <= i < |more| ensures Faithful(env, start, more, i) {
      assert i < |log| ==> Faithful(env, start, log, i);
    }
  }

  lemma SkipStep(env: Env, start: Store, log: seq<Extraction>, n: nat)
    requires IsLog(env, start, log, n) && !env.action(n).Extracting?
    ensures IsLog(env, start, log, n + 1)
  {
    hide Faithful;
  }

  lemma ExtendStreak(log: seq<Extraction>, streak: nat, x: Extraction)
    requires IsStreak(log, streak)
    ensures IsStreak(log + [x], if Unchanged(x) then streak + 1 else 0)
  {
  }

  /** The run goes on after this action unless an EXTRACT ends it. */
  predicate GoesOn(a: Action) {
    a.Acting? || (a.Extracting? && a.breaks.Nowhere?)
  }

  lemma GoesOnMeans()
    ensures forall a :: GoesOn(a) <==> a.Acting? || (a.Extracting? && a.breaks.Nowhere?)
  {
  }

  /** The EXTRACT of step n - 1 was recorded. */
  predicate Recorded(log: seq<Extraction>, n: nat) {
    log != [] && log[|log| - 1].step == n - 1
  }

  /** Step n - 1 raises: on its own, while its EXTRACT is recorded or reported, or at the scroll
      after an EXTRACT that did not end the run. */
  ghost predicate LastRaises(env: Env, fields: seq<string>, log: seq<Extraction>, n: nat)
    requires n > 0
  {
    match env.action(n - 1)
    case Breaks => true
    case Extracting(e, breaks) =>
      if Recorded(log, n) then
        || breaks.WhileReporting?
        || (breaks.WhileScrolling? && !Filled(fields, log[|log| - 1].after) && !ThreeUnchanged(log, |log|))
      else Record(StoreAfter(InitialStore(fields), log), e, env.url(n - 1)).None?
    case _ => false
  }

  lemma RecordedExactly(env: Env, start: Store, log: seq<Extraction>, n: nat)
    requires IsLog(env, start, log, n)
    ensures !Recorded(log, n + 1)
    ensures n > 0 && env.action(n - 1).Extracting? ==> Recorded(log, n)
    ensures Recorded(log, n) ==> n > 0 && env.action(n - 1).Extracting?
  {
    hide Record;
    if log != [] {
      assert Faithful(env, start, log, |log| - 1);
    }
    if n > 0 && env.action(n - 1).Extracting? {
      var i :| 0 <= i < |log| && log[i].step == n - 1;
      assert i == |log| - 1;
    }
  }

  lemma StepRaises(env: Env, fields: seq<string>, log: seq<Extraction>, n: nat)
    requires IsLog(env, InitialStore(fields), log, n)
    ensures env.action(n).Breaks? ==> LastRaises(env, fields, log, n + 1)
    ensures env.action(n).Extracting? ==>
      Record(StoreAfter(InitialStore(fields), log), env.action(n).e, env.url(n)).None? ==>
      LastRaises(env, fields, log, n + 1)
  {
    hide Record, IsLog, StoreAfter;
    RecordedExactly(env, InitialStore(fields), log, n);
  }

  lemma LastRaisesExactly(env: Env, fields: seq<string>, log: seq<Extraction>, n: nat, store: Store)
    requires n > 0 && IsLog(env, InitialStore(fields), log, n) && store == StoreAfter(InitialStore(fields), log)
    ensures LastRaises(env, fields, log, n) <==>
      match env.action(n - 1)
      case Breaks => true
      case Extracting(_, breaks) =>
        breaks.WhileReporting? || (breaks.WhileScrolling? && !Filled(fields, store) && !ThreeUnchanged(log, |log|))
      case _ => false
  {
    hide Record, IsLog, Filled, ThreeUnchanged;
    RecordedExactly(env, InitialStore(fields), log, n);
  }

  /** A run stops for lack of progress exactly after three EXTRACTs in a row, whatever happened
      between them, that left the store unchanged; no three such ever go unnoticed. It stops as
      filled exactly at the first EXTRACT that fills all fields, and otherwise at the first step in
      which the model says done or fail or something raises, or after the allowed number of steps. */
  method Execute(env: Env, fields: seq<string>, maxSteps: nat) returns (r: RunResult, ghost log: seq<Extraction>)
    requires forall k: nat :: env.action(k).Extracting? ==> DictFields(env.action(k).e)
    ensures r.steps <= maxSteps
    ensures r.stop != Raised ==>
      IsLog(env, InitialStore(fields), log, r.steps) && r.store == StoreAfter(InitialStore(fields), log)
    ensures CleanStore(r.store)
    ensures r.stop == Raised ==> r.steps > 0 && RaisedWith(env, InitialStore(fields), log, r.steps, r.store)
    ensures r.stop == NoProgress ==> ThreeUnchanged(log, |log|) && !Filled(fields, r.store)
    ensures forall n :: n < |log| ==> !ThreeUnchanged(log, n)
    ensures r.stop in {MaxSteps, SaidDone, SaidFail} ==> !ThreeUnchanged(log, |log|)
    ensures r.stop == AllFilled ==> Filled(fields, r.store) && log != []
    ensures forall i :: 0 <= i < |log| - 1 ==> !Filled(fields, log[i].after)
    ensures r.stop != Raised && log != [] ==> (Filled(fields, log[|log| - 1].after) <==> r.stop == AllFilled)
    ensures r.stop == MaxSteps ==> r.steps == maxSteps
    ensures r.success <==> r.stop in {SaidDone, AllFilled, NoProgress}
    ensures forall k :: 0 <= k < r.steps - 1 ==> GoesOn(env.action(k))
    ensures r.stop == SaidDone <==> r.steps > 0 && env.action(r.steps - 1).Done?
    ensures r.stop == SaidFail <==> r.steps > 0 && env.action(r.steps - 1).Fail?
    ensures r.stop == Raised <==> r.steps > 0 && LastRaises(env, fields, log, r.steps)
    ensures r.stop != Raised && log == [] ==>
      forall f :: (f in r.store <==> f in fields) && (f in fields ==> r.store[f] == Null)
    ensures r.stop == NoProgress <==> ThreeUnchanged(log, |log|) && r.stop != Raised && r.stop != AllFilled
  {
    hide *;
    var store := InitialStore(fields);
    var streak, steps := 0, 0;
    log := [];
    NothingExtracted(env, fields);
    GoesOnMeans();
    while steps < maxSteps
      invariant steps <= maxSteps && streak < 3
      invariant IsLog(env, InitialStore(fields), log, steps) && store == StoreAfter(InitialStore(fields), log)
      invariant CleanStore(store) && IsStreak(log, streak)
      invariant forall i :: 0 <= i < |log| ==> !Filled(fields, log[i].after)
      invariant forall n :: n <= |log| ==> !ThreeUnchanged(log, n)
      invariant forall k :: 0 <= k < steps ==> GoesOn(env.action(k))
    {
      var action := env.action(steps);
      StepRaises(env, fields, log, steps);
      if action.Breaks? {
        RaisedInStep(env, InitialStore(fields), log, steps);
        return RunResult(false, steps + 1, store, Raised), log;
      }
      if action.Extracting? {
        var next, raised := RecordExtraction(store, action.e, env.url(steps));
        if raised {
          StoredStaysClean(store, action.e.data, 0);
          RaisedInStep(env, InitialStore(fields), log, steps);
          return RunResult(false, steps + 1, next, Raised), log;
        }
        var before, after := Signature(store), Signature(next);
        RecordFacts(store, action.e, env.url(steps));
        ProgressIsExact(store, action.e, env.url(steps));
        ghost var x := Extraction(steps, store, next);
        ExtractionLogged(env, InitialStore(fields), log, steps, x, streak);
        streak := if before == after then streak + 1 else 0;
        log := log + [x];
        store := next;
        steps := steps + 1;
        RaisedAfterExtract(env, InitialStore(fields), log, steps);
        LastRaisesExactly(env, fields, log, steps, store);
        if action.breaks.WhileReporting? {
          return RunResult(false, steps, store, Raised), log;
        }
        if Filled(fields, store) {
          return RunResult(true, steps, store, AllFilled), log;
        }
        if streak >= 3 {
          return RunResult(true, steps, store, NoProgress), log;
        }
        if action.breaks.WhileScrolling? {
          return RunResult(false, steps, store, Raised), log;
        }
      } else {
        SkipStep(env, InitialStore(fields), log, steps);
        steps := steps + 1;
        LastRaisesExactly(env, fields, log, steps, store);
        if action.Done? {
          return RunResult(true, steps, store, SaidDone), log;
        }
        if action.Fail? {
          return RunResult(false, steps, store, SaidFail), log;
        }
      }
    }
    if steps > 0 {
      LastRaisesExactly(env, fields, log, steps, store);
    }
    r := RunResult(false, steps, store, MaxSteps);
  }

  lemma NothingExtracted(env: Env, fields: seq<string>)
    ensures IsLog(env, InitialStore(fields), [], 0) && StoreAfter(InitialStore(fields), []) == InitialStore(fields)
    ensures CleanStore(InitialStore(fields)) && IsStreak([], 0)
    ensures var s := InitialStore(fields); forall f :: (f in s <==> f in fields) && (f in fields ==> s[f] == Null)
    ensures forall n :: n <= 0 ==> !ThreeUnchanged([], n)
  {
  }

  lemma ThreeUnchangedSnoc(log: seq<Extraction>, streak: nat, x: Extraction)
    requires IsStreak(log, streak) && streak < 3 && forall k :: k <= |log| ==> !ThreeUnchanged(log, k)
    ensures forall k :: k < |log| + 1 ==> !ThreeUnchanged(log + [x], k)
    ensures ThreeUnchanged(log + [x], |log| + 1) <==> Unchanged(x) && streak == 2
  {
    hide Unchanged;
    var more := log + [x];
    assert more[|log|] == x && forall i :: 0 <= i < |log| ==> more[i] == log[i];
    forall k | k < |more| ensures !ThreeUnchanged(more, k) {
      assert !ThreeUnchanged(log, k);
    }
  }

  lemma ExtractionLogged(env: Env, start: Store, log: seq<Extraction>, n: nat, x: Extraction, streak: nat)
    requires IsLog(env, start, log, n) && x.step == n && env.action(n).Extracting? && x.before == StoreAfter(start, log)
    requires Record(x.before, env.action(n).e, env.url(n)) == Some(x.after)
    requires IsStreak(log, streak) && streak < 3 && forall k :: k <= |log| ==> !ThreeUnchanged(log, k)
    ensures IsLog(env, start, log + [x], n + 1) && StoreAfter(start, log + [x]) == x.after
    ensures IsStreak(log + [x], if x.before == x.after then streak + 1 else 0)
    ensures forall k :: k < |log + [x]| ==> !ThreeUnchanged(log + [x], k)
    ensures ThreeUnchanged(log + [x], |log + [x]|) <==> x.before == x.after && streak == 2
  {
    hide Record, IsLog, IsStreak, ThreeUnchanged;
    ExtendLog(env, start, log, n, x);
    ExtendStreak(log, streak, x);
    ThreeUnchangedSnoc(log, streak, x);
  }
}
