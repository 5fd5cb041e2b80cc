/** Canonical encoding identifies exactly the values that denote the same JSON tree, and the newline-joined
    per-entry text a receipt hashes determines its whole timeline
    (nth_dao/canonical_json.py, `_hash_and_dicts` of nth_dao/execution_receipt.py). */
module CanonicalEncoding {
  import opened Prelude
  import opened CanonicalJson

  // ---------------------------------------------------------------- key order

  /** Strict string order by code point. */
  predicate Less(a: string, b: string) {
    b != "" && (a == "" || a[0] < b[0] || (a[0] == b[0] && Less(a[1..], b[1..])))
  }

  /** The first difference decides: a smaller character, or the end of the shorter string. */
  predicate DiffersAt(a: string, b: string, n: nat) {
    n <= |a| && n < |b| && a[..n] == b[..n] && (n == |a| || a[n] < b[n])
  }

  /** The key order is the order of Python strings. */
  lemma {:induction false} LessIsLexicographic(a: string, b: string)
    ensures Less(a, b) <==> exists n: nat :: DiffersAt(a, b, n)
  {
    forall n: nat | DiffersAt(a, b, n) && n > 0 ensures a != "" && a[0] == b[0] {
      assert a[..n][0] == a[0] && b[..n][0] == b[0];
    }
    if a != "" && b != "" && a[0] == b[0] {
      LessIsLexicographic(a[1..], b[1..]);
      if Less(a, b) {
        var n: nat :| DiffersAt(a[1..], b[1..], n);
        assert a[..n + 1] == [a[0]] + a[1..][..n] && b[..n + 1] == [b[0]] + b[1..][..n];
        assert DiffersAt(a, b, n + 1);
      }
      if n: nat :| DiffersAt(a, b, n) {
        assert a[1..][..n - 1] == a[..n][1..] && b[1..][..n - 1] == b[..n][1..];
        assert DiffersAt(a[1..], b[1..], n - 1);
      }
    } else if Less(a, b) {
      assert DiffersAt(a, b, 0);
    }
  }

  lemma {:induction false} LessTotal(a: string, b: string)
    ensures a == b || Less(a, b) || Less(b, a)
    ensures !(Less(a, b) && Less(b, a))
    ensures !Less(a, a)
  {
    if a != "" {
      LessTotal(a[1..], a[1..]);
    }
    if a != "" && b != "" {
      LessTotal(a[1..], b[1..]);
      assert a == [a[0]] + a[1..] && b == [b[0]] + b[1..];
    }
  }

  lemma {:induction false} LessTransitive(a: string, b: string, c: string)
    requires Less(a, b) && Less(b, c)
    ensures Less(a, c)
  {
    if a != "" && a[0] == b[0] == c[0] {
      LessTransitive(a[1..], b[1..], c[1..]);
    }
  }

  predicate KeyLess(a: Key, b: Key) {
    a.Str? && b.Str? && Less(a.s, b.s)
  }

  // ---------------------------------------------------------------- canonical form

  function Insert(e: Entry, sorted: seq<Entry>): seq<Entry> {
    if sorted == [] then [e]
    else
      var n := |sorted| - 1;
      if KeyLess(sorted[n].key, e.key) then sorted + [e] else Insert(e, sorted[..n]) + [sorted[n]]
  }

  function Sort(entries: seq<Entry>): seq<Entry> {
    if entries == [] then []
    else
      var n := |entries| - 1;
      Insert(entries[n], Sort(entries[..n]))
  }

  function Canon(v: Value): Value
    decreases v, 0
  {
    match v
    case List(items) => List(CanonItems(items))
    case Dict(entries) => Dict(Sort(CanonEntries(entries)))
    case _ => v
  }

  function CanonItems(items: seq<Value>): seq<Value>
    decreases items, 1
  {
    if items == [] then [] else CanonItems(items[..|items| - 1]) + [Canon(items[|items| - 1])]
  }

  function CanonEntries(entries: seq<Entry>): seq<Entry>
    decreases entries, 1
  {
    if entries == [] then [] else CanonEntries(entries[..|entries| - 1]) + [CanonEntry(entries[|entries| - 1])]
  }

  function CanonEntry(e: Entry): Entry
    decreases e, 2
  {
    Entry(e.key, Canon(e.value))
  }

  predicate Sorted(entries: seq<Entry>) {
    forall i, j :: 0 <= i < j < |entries| ==> KeyLess(entries[i].key, entries[j].key)
  }

  predicate IsCanon(v: Value) {
    match v
    case List(items) => forall x :: x in items ==> IsCanon(x)
    case Dict(entries) => Sorted(entries) && forall e :: e in entries ==> IsCanon(e.value)
    case _ => true
  }

  lemma {:induction false} InsertMembers(e: Entry, sorted: seq<Entry>)
    ensures forall x :: x in Insert(e, sorted) <==> x == e || x in sorted
  {
    if sorted != [] {
      var n := |sorted| - 1;
      InsertMembers(e, sorted[..n]);
      assert sorted == sorted[..n] + [sorted[n]];
    }
  }

  lemma {:induction false} SortMembers(entries: seq<Entry>)
    ensures forall x :: x in Sort(entries) <==> x in entries
  {
    if entries != [] {
      var n := |entries| - 1;
      SortMembers(entries[..n]);
      InsertMembers(entries[n], Sort(entries[..n]));
      assert entries == entries[..n] + [entries[n]];
    }
  }

  lemma SortedAppend(init: seq<Entry>, last: Entry)
    requires Sorted(init) && forall x :: x in init ==> KeyLess(x.key, last.key)
    ensures Sorted(init + [last])
  {
    var s := init + [last];
    forall i, j | 0 <= i < j < |s| ensures KeyLess(s[i].key, s[j].key) {
      assert s[i] == init[i] && init[i] in init;
    }
  }

  lemma {:induction false} InsertSorts(e: Entry, sorted: seq<Entry>)
    requires Sorted(sorted) && e.key.Str? && forall x :: x in sorted ==> x.key.Str? && x.key != e.key
    ensures Sorted(Insert(e, sorted))
  {
    if sorted != [] {
      var n := |sorted| - 1;
      var last, init := sorted[n], sorted[..n];
      assert last in sorted && sorted == init + [last];
      LessTotal(last.key.s, e.key.s);
      if KeyLess(last.key, e.key) {
        forall x | x in sorted ensures KeyLess(x.key, e.key) {
          if x != last {
            var i :| 0 <= i < n && sorted[i] == x;
            LessTransitive(x.key.s, last.key.s, e.key.s);
          }
        }
        SortedAppend(sorted, e);
      } else {
        InsertSorts(e, init);
        InsertMembers(e, init);
        forall x | x in Insert(e, init) ensures KeyLess(x.key, last.key) {
          if x != e {
            var i :| 0 <= i < n && sorted[i] == x;
          }
        }
        SortedAppend(Insert(e, init), last);
      }
    }
  }

  lemma {:induction false} SortSorts(entries: seq<Entry>)
    requires DistinctKeys(entries) && forall e :: e in entries ==> e.key.Str?
    ensures Sorted(Sort(entries))
  {
    if entries != [] {
      var n := |entries| - 1;
      SortSorts(entries[..n]);
      SortMembers(entries[..n]);
      InsertSorts(entries[n], Sort(entries[..n]));
    }
  }

  lemma {:induction false} CanonIsCanon(v: Value)
    requires Accepts(v)
    ensures Accepts(Canon(v)) && (WellFormed(v) ==> IsCanon(Canon(v)))
    decreases v, 0
  {
    match v
    case List(items) => CanonItemsAre(items);
    case Dict(entries) =>
      CanonEntriesAre(entries);
      SortMembers(CanonEntries(entries));
      if WellFormed(v) {
        SortSorts(CanonEntries(entries));
      }
    case _ =>
  }

  lemma {:induction false} CanonItemsAre(items: seq<Value>)
    requires forall x :: x in items ==> Accepts(x)
    ensures forall x :: x in CanonItems(items) ==> Accepts(x)
    ensures (forall x :: x in items ==> WellFormed(x)) ==> forall x :: x in CanonItems(items) ==> IsCanon(x)
    decreases items, 1
  {
    if items != [] {
      var n := |items| - 1;
      CanonItemsAre(items[..n]);
      CanonIsCanon(items[n]);
      assert items == items[..n] + [items[n]];
    }
  }

  predicate GoodEntry(e: Entry) {
    e.key.Str? && Accepts(e.value)
  }

  lemma {:induction false} CanonEntryIs(e: Entry)
    requires GoodEntry(e)
    ensures CanonEntry(e).key == e.key && GoodEntry(CanonEntry(e))
    ensures WellFormed(e.value) ==> IsCanon(CanonEntry(e).value)
    decreases e, 2
  {
    CanonIsCanon(e.value);
  }

  lemma {:induction false} CanonEntriesKeys(entries: seq<Entry>)
    ensures |CanonEntries(entries)| == |entries|
    ensures forall i :: 0 <= i < |entries| ==> CanonEntries(entries)[i].key == entries[i].key
  {
    if entries != [] { CanonEntriesKeys(entries[..|entries| - 1]); }
  }

  predicate AllGood(entries: seq<Entry>) {
    forall e :: e in entries ==> GoodEntry(e)
  }

  predicate AllFormed(entries: seq<Entry>) {
    forall e :: e in entries ==> WellFormed(e.value)
  }

  predicate AllCanon(entries: seq<Entry>) {
    forall e :: e in entries ==> IsCanon(e.value)
  }

  lemma InitOf(entries: seq<Entry>)
    requires entries != []
    ensures var n := |entries| - 1;
            && (AllGood(entries) ==> AllGood(entries[..n]) && GoodEntry(entries[n]))
            && (AllFormed(entries) ==> AllFormed(entries[..n]) && WellFormed(entries[n].value))
  {
    assert entries[|entries| - 1] in entries;
  }

  lemma SnocOf(init: seq<Entry>, last: Entry)
    ensures AllGood(init) && GoodEntry(last) ==> AllGood(init + [last])
    ensures AllCanon(init) && IsCanon(last.value) ==> AllCanon(init + [last])
  {
  }

  lemma {:induction false} CanonEntriesAre(entries: seq<Entry>)
    requires AllGood(entries)
    ensures |CanonEntries(entries)| == |entries|
    ensures forall i :: 0 <= i < |entries| ==> CanonEntries(entries)[i].key == entries[i].key
    ensures AllGood(CanonEntries(entries)) && (AllFormed(entries) ==> AllCanon(CanonEntries(entries)))
    decreases entries, 1
  {
    CanonEntriesKeys(entries);
    if entries != [] {
      var n := |entries| - 1;
      InitOf(entries);
      CanonEntriesAre(entries[..n]);
      CanonEntryIs(entries[n]);
      SnocOf(CanonEntries(entries[..n]), CanonEntry(entries[n]));
    }
  }

  /** `canonical_json` before the UTF-8 step, without the root check. */
  function Encode(v: Value): string
    requires Accepts(v)
  {
    CanonIsCanon(v);
    Print(Canon(v))
  }

  function Serialize(v: Value): Result<string> {
    if !v.Dict? then Err("root must be a dict") else if !Accepts(v) then Err("unsupported value") else Ok(Encode(v))
  }

  // ---------------------------------------------------------------- what a value denotes

  /** A JSON tree: objects are maps, so key order does not exist. */
  datatype Tree = TNull | TBool(b: bool) | TInt(i: int) | TText(s: string) | TList(ts: seq<Tree>) | TObj(m: map<string, Tree>)

  function Denote(v: Value): Tree
    requires Accepts(v)
    decreases v, 0
  {
    match v
    case Null => TNull
    case Bool(b) => TBool(b)
    case Int(i) => TInt(i)
    case Text(s) => TText(s)
    case List(items) => TList(DenoteItems(items))
    case Dict(entries) => TObj(DenoteEntries(entries))
  }

  function DenoteItems(items: seq<Value>): (ts: seq<Tree>)
    requires forall x :: x in items ==> Accepts(x)
    ensures |ts| == |items|
    decreases items, 1
  {
    if items == [] then [] else DenoteItems(items[..|items| - 1]) + [Denote(items[|items| - 1])]
  }

  function DenoteEntries(entries: seq<Entry>): map<string, Tree>
    requires forall e :: e in entries ==> GoodEntry(e)
    decreases entries, 1
  {
    if entries == [] then map[]
    else
      var n := |entries| - 1;
      assert GoodEntry(entries[n]);
      DenoteEntries(entries[..n])[entries[n].key.s := DenoteEntry(entries[n])]
  }

  function DenoteEntry(e: Entry): Tree
    requires GoodEntry(e)
    decreases e, 2
  {
    Denote(e.value)
  }

  lemma {:induction false} DenoteKeys(entries: seq<Entry>)
    requires forall e :: e in entries ==> GoodEntry(e)
    ensures forall k :: k in DenoteEntries(entries) <==> exists e :: e in entries && e.key == Str(k)
  {
    if entries != [] {
      var n := |entries| - 1;
      DenoteKeys(entries[..n]);
      assert entries == entries[..n] + [entries[n]];
      assert entries[n] in entries && entries[n].key == Str(entries[n].key.s);
    }
  }

  lemma DenoteSnoc(es: seq<Entry>, x: Entry)
    requires GoodEntry(x) && forall e :: e in es ==> GoodEntry(e)
    ensures (forall e :: e in es + [x] ==> GoodEntry(e)) && DenoteEntries(es + [x]) == DenoteEntries(es)[x.key.s := DenoteEntry(x)]
  {
    assert (es + [x])[..|es|] == es;
  }

  lemma UpdatesSwap(m: map<string, Tree>, j: string, t: Tree, k: string, u: Tree)
    requires j != k
    ensures m[j := t][k := u] == m[k := u][j := t]
  {
  }

  lemma {:induction false} DenoteInsert(e: Entry, sorted: seq<Entry>)
    requires GoodEntry(e) && forall x :: x in sorted ==> GoodEntry(x) && x.key != e.key
    ensures forall x :: x in Insert(e, sorted) ==> GoodEntry(x)
    ensures DenoteEntries(Insert(e, sorted)) == DenoteEntries(sorted)[e.key.s := DenoteEntry(e)]
  {
    InsertMembers(e, sorted);
    if sorted == [] {
      DenoteSnoc([], e);
      assert [] + [e] == [e];
    } else {
      var n := |sorted| - 1;
      var init, x := sorted[..n], sorted[n];
      assert sorted == init + [x] && x in sorted;
      if KeyLess(x.key, e.key) {
        DenoteSnoc(sorted, e);
      } else {
        DenoteInsert(e, init);
        DenoteSnoc(init, x);
        DenoteSnoc(Insert(e, init), x);
        UpdatesSwap(DenoteEntries(init), e.key.s, DenoteEntry(e), x.key.s, DenoteEntry(x));
      }
    }
  }

  lemma {:induction false} DenoteSort(entries: seq<Entry>)
    requires DistinctKeys(entries) && forall e :: e in entries ==> GoodEntry(e)
    ensures forall e :: e in Sort(entries) ==> GoodEntry(e)
    ensures DenoteEntries(Sort(entries)) == DenoteEntries(entries)
  {
    if entries != [] {
      var n := |entries| - 1;
      DenoteSort(entries[..n]);
      SortMembers(entries[..n]);
      DenoteInsert(entries[n], Sort(entries[..n]));
    }
  }

  /** Sorting the keys does not change what a value denotes. */
  lemma {:induction false} DenoteCanon(v: Value)
    requires Accepts(v) && WellFormed(v)
    ensures Accepts(Canon(v)) && Denote(Canon(v)) == Denote(v)
    decreases v, 0
  {
    CanonIsCanon(v);
    match v
    case List(items) => DenoteCanonItems(items);
    case Dict(entries) =>
      CanonEntriesAre(entries);
      DenoteCanonEntries(entries);
      DenoteSort(CanonEntries(entries));
    case _ =>
  }

  lemma {:induction false} DenoteCanonItems(items: seq<Value>)
    requires forall x :: x in items ==> Accepts(x) && WellFormed(x)
    ensures (forall x :: x in CanonItems(items) ==> Accepts(x)) && DenoteItems(CanonItems(items)) == DenoteItems(items)
    decreases items, 1
  {
    CanonItemsAre(items);
    if items != [] {
      var n := |items| - 1;
      DenoteCanonItems(items[..n]);
      DenoteCanon(items[n]);
      assert CanonItems(items)[..|CanonItems(items)| - 1] == CanonItems(items[..n]);
    }
  }

  lemma {:induction false} DenoteCanonEntry(e: Entry)
    requires GoodEntry(e) && WellFormed(e.value)
    ensures GoodEntry(CanonEntry(e)) && DenoteEntry(CanonEntry(e)) == DenoteEntry(e) && CanonEntry(e).key == e.key
    decreases e, 2
  {
    DenoteCanon(e.value);
  }

  lemma {:induction false} DenoteCanonEntries(entries: seq<Entry>)
    requires forall e :: e in entries ==> GoodEntry(e) && WellFormed(e.value)
    ensures (forall e :: e in CanonEntries(entries) ==> GoodEntry(e)) && DenoteEntries(CanonEntries(entries)) == DenoteEntries(entries)
    decreases entries, 1
  {
    CanonEntriesAre(entries);
    if entries != [] {
      var n := |entries| - 1;
      DenoteCanonEntries(entries[..n]);
      DenoteCanonEntry(entries[n]);
      assert CanonEntries(entries)[..n] == CanonEntries(entries[..n]);
    }
  }

  // ---------------------------------------------------------------- canonical form is determined by the denotation

  lemma {:induction false} CanonDetermined(c: Value, d: Value)
    requires Accepts(c) && Accepts(d) && IsCanon(c) && IsCanon(d) && Denote(c) == Denote(d)
    ensures c == d
    decreases c, 0
  {
    match c
    case List(items) => ItemsDetermined(items, d.items);
    case Dict(entries) => EntriesDetermined(entries, d.entries);
    case _ =>
  }

  lemma {:induction false} ItemsDetermined(a: seq<Value>, b: seq<Value>)
    requires forall x :: x in a ==> Accepts(x) && IsCanon(x)
    requires forall x :: x in b ==> Accepts(x) && IsCanon(x)
    requires DenoteItems(a) == DenoteItems(b)
    ensures a == b
    decreases a, 1
  {
    if a != [] {
      var n := |a| - 1;
      assert |b| == |a|;
      assert DenoteItems(a)[..n] == DenoteItems(a[..n]) && DenoteItems(b)[..n] == DenoteItems(b[..n]);
      assert DenoteItems(a)[n] == Denote(a[n]) && DenoteItems(b)[n] == Denote(b[n]);
      ItemsDetermined(a[..n], b[..n]);
      CanonDetermined(a[n], b[n]);
      assert a == a[..n] + [a[n]] && b == b[..n] + [b[n]];
    }
  }

  ghost predicate CanonEntries?(entries: seq<Entry>) {
    Sorted(entries) && forall e :: e in entries ==> GoodEntry(e) && IsCanon(e.value)
  }

  lemma LastKeyIsLargest(entries: seq<Entry>, k: string)
    requires CanonEntries?(entries) && entries != [] && k in DenoteEntries(entries)
    ensures k == entries[|entries| - 1].key.s || Less(k, entries[|entries| - 1].key.s)
  {
    DenoteKeys(entries);
    var e :| e in entries && e.key == Str(k);
    var i :| 0 <= i < |entries| && entries[i] == e;
  }

  lemma SameLastKey(a: seq<Entry>, b: seq<Entry>)
    requires CanonEntries?(a) && CanonEntries?(b) && a != [] && b != [] && DenoteEntries(a) == DenoteEntries(b)
    ensures a[|a| - 1].key == b[|b| - 1].key
  {
    var ka, kb := a[|a| - 1].key.s, b[|b| - 1].key.s;
    LastKeyIsLargest(a, kb);
    LastKeyIsLargest(b, ka);
    LessTotal(ka, kb);
  }

  lemma InitIsCanon(entries: seq<Entry>)
    requires CanonEntries?(entries) && entries != []
    ensures CanonEntries?(entries[..|entries| - 1])
    ensures forall e :: e in entries[..|entries| - 1] ==> e.key != entries[|entries| - 1].key
  {
    var n := |entries| - 1;
    forall e | e in entries[..n] ensures e.key != entries[n].key {
      var i :| 0 <= i < n && entries[i] == e;
      assert KeyLess(entries[i].key, entries[n].key);
      LessTotal(e.key.s, e.key.s);
    }
  }

  lemma UpdateRemove<T>(m: map<string, T>, k: string, x: T)
    requires k !in m
    ensures m[k := x] - {k} == m
  {
  }

  lemma LastKeyIsNew(entries: seq<Entry>)
    requires (forall e :: e in entries ==> GoodEntry(e)) && entries != []
    requires forall e :: e in entries[..|entries| - 1] ==> e.key != entries[|entries| - 1].key
    ensures var n := |entries| - 1;
            entries[n].key.Str? && DenoteEntries(entries[..n]) == DenoteEntries(entries) - {entries[n].key.s}
  {
    var n := |entries| - 1;
    assert entries[n] in entries;
    assert GoodEntry(entries[n]);
    var init, k := entries[..n], entries[n].key.s;
    DenoteKeys(init);
    assert entries[n].key == Str(k);
    UpdateRemove(DenoteEntries(init), k, DenoteEntry(entries[n]));
  }

  lemma NoKeysNoEntries(entries: seq<Entry>)
    requires forall e :: e in entries ==> GoodEntry(e)
    ensures entries == [] <==> DenoteEntries(entries) == map[]
  {
    if entries != [] {
      assert entries[|entries| - 1] in entries;
      assert entries[|entries| - 1].key.s in DenoteEntries(entries);
    }
  }

  lemma {:induction false} EntriesDetermined(a: seq<Entry>, b: seq<Entry>)
    requires CanonEntries?(a) && CanonEntries?(b) && DenoteEntries(a) == DenoteEntries(b)
    ensures a == b
    decreases a, 1
  {
    NoKeysNoEntries(a);
    NoKeysNoEntries(b);
    if a != [] {
      var n, m := |a| - 1, |b| - 1;
      SameLastKey(a, b);
      InitIsCanon(a);
      InitIsCanon(b);
      LastKeyIsNew(a);
      LastKeyIsNew(b);
      EntriesDetermined(a[..n], b[..m]);
      assert a[n] in a && b[m] in b;
      LastValues(a, b);
      EntryDetermined(a[n], b[m]);
      assert a == a[..n] + [a[n]] && b == b[..m] + [b[m]];
    }
  }

  lemma LastValues(a: seq<Entry>, b: seq<Entry>)
    requires (forall e :: e in a ==> GoodEntry(e)) && (forall e :: e in b ==> GoodEntry(e))
    requires a != [] && b != [] && DenoteEntries(a) == DenoteEntries(b) && a[|a| - 1].key == b[|b| - 1].key
    requires GoodEntry(a[|a| - 1]) && GoodEntry(b[|b| - 1])
    ensures DenoteEntry(a[|a| - 1]) == DenoteEntry(b[|b| - 1])
  {
    assert DenoteEntries(a)[a[|a| - 1].key.s] == DenoteEntry(a[|a| - 1]);
    assert DenoteEntries(b)[b[|b| - 1].key.s] == DenoteEntry(b[|b| - 1]);
  }

  lemma {:induction false} EntryDetermined(e: Entry, f: Entry)
    requires GoodEntry(e) && GoodEntry(f) && IsCanon(e.value) && IsCanon(f.value)
    requires e.key == f.key && DenoteEntry(e) == DenoteEntry(f)
    ensures e == f
    decreases e, 2
  {
    CanonDetermined(e.value, f.value);
  }

  /** Two accepted values have the same canonical text exactly when they denote the same JSON tree:
      key order is irrelevant and nothing else is lost. */
  lemma EncodingIsExact(v: Value, w: Value)
    requires Accepts(v) && WellFormed(v) && Accepts(w) && WellFormed(w)
    ensures Encode(v) == Encode(w) <==> Denote(v) == Denote(w)
  {
    CanonIsCanon(v);
    CanonIsCanon(w);
    DenoteCanon(v);
    DenoteCanon(w);
    PrintParses(Canon(v), "");
    PrintParses(Canon(w), "");
    assert Print(Canon(v)) + "" == Print(Canon(v)) && Print(Canon(w)) + "" == Print(Canon(w));
    if Denote(v) == Denote(w) {
      CanonDetermined(Canon(v), Canon(w));
    }
  }

  /** The public entry serialises exactly the accepted objects. */
  lemma SerializesIff(v: Value)
    ensures Serialize(v).Ok? <==> v.Dict? && Accepts(v)
    ensures v.Dict? && Accepts(v) ==> Serialize(v) == Ok(Encode(v))
  {
  }

  /** The public entry refuses everything but an accepted object, and two objects serialize alike exactly when
      they denote the same tree. */
  lemma SerializeIsExact(v: Value, w: Value)
    requires WellFormed(v) && WellFormed(w) && Serialize(v).Ok? && Serialize(w).Ok?
    ensures v.Dict? && w.Dict? && Accepts(v) && Accepts(w) && (Serialize(v) == Serialize(w) <==> Denote(v) == Denote(w))
  {
    EncodingIsExact(v, w);
  }

  /** Parsing canonical text recovers the value, up to key order. */
  lemma ParseRecovers(v: Value)
    requires Accepts(v) && WellFormed(v)
    ensures ParseValue(Encode(v)) == Got(Canon(v), "") && Accepts(Canon(v)) && Denote(Canon(v)) == Denote(v)
  {
    DenoteCanon(v);
    PrintParses(Canon(v), "");
    assert Print(Canon(v)) + "" == Print(Canon(v));
  }

  // ---------------------------------------------------------------- no raw newline, and what a receipt hashes

  predicate OneLine(s: string) {
    forall c :: c in s ==> c >= ' '
  }

  lemma {:induction false} DecimalOneLine(n: nat)
    ensures OneLine(Decimal(n))
  {
    if n >= 10 {
      DecimalOneLine(n / 10);
    }
  }

  lemma {:induction false} EscapeOneLine(s: string)
    ensures OneLine(Escape(s))
  {
    if s != "" {
      EscapeOneLine(s[1..]);
    }
  }

  lemma {:induction false} PrintOneLine(v: Value)
    requires Accepts(v)
    ensures OneLine(Print(v))
    decreases v, 0
  {
    match v
    case Int(i) => DecimalOneLine(if i < 0 then -i else i);
    case Text(s) => EscapeOneLine(s);
    case List(items) => if items != [] { ItemsOneLine(items); }
    case Dict(entries) => if entries != [] { EntriesOneLine(entries); }
    case _ =>
  }

  lemma {:induction false} ItemsOneLine(items: seq<Value>)
    requires items != [] && forall x :: x in items ==> Accepts(x)
    ensures OneLine(PrintItems(items))
    decreases items, 1
  {
    PrintOneLine(items[0]);
    if |items| > 1 {
      ItemsOneLine(items[1..]);
    }
  }

  lemma {:induction false} EntryOneLine(e: Entry)
    requires e.key.Str? && Accepts(e.value)
    ensures OneLine(PrintEntry(e))
    decreases e, 2
  {
    EscapeOneLine(e.key.s);
    PrintOneLine(e.value);
  }

  lemma {:induction false} EntriesOneLine(entries: seq<Entry>)
    requires entries != [] && forall e :: e in entries ==> e.key.Str? && Accepts(e.value)
    ensures OneLine(PrintEntries(entries))
    decreases entries, 1
  {
    EntryOneLine(entries[0]);
    if |entries| > 1 {
      EntriesOneLine(entries[1..]);
    }
  }

  function Join(lines: seq<string>): string
    requires lines != []
  {
    if |lines| == 1 then lines[0] else lines[0] + "\n" + Join(lines[1..])
  }

  /** Everything before the first newline. */
  function FirstLine(s: string): string {
    if s == "" || s[0] == '\n' then "" else [s[0]] + FirstLine(s[1..])
  }

  lemma {:induction false} FirstLineOf(line: string, rest: string)
    requires OneLine(line) && (rest == "" || rest[0] == '\n')
    ensures FirstLine(line + rest) == line
  {
    if line == "" {
      assert line + rest == rest;
    } else {
      assert line[0] in line && forall c :: c in line[1..] ==> c in line;
      FirstLineOf(line[1..], rest);
      assert (line + rest)[1..] == line[1..] + rest;
      assert line == [line[0]] + line[1..];
    }
  }

  /** What `Join` puts after the first line. */
  function AfterFirst(lines: seq<string>): string
    requires lines != []
  {
    if |lines| == 1 then "" else "\n" + Join(lines[1..])
  }

  lemma HeadsAgree(x: string, r: string, y: string, t: string)
    requires OneLine(x) && OneLine(y) && (r == "" || r[0] == '\n') && (t == "" || t[0] == '\n') && x + r == y + t
    ensures x == y && r == t
  {
    FirstLineOf(x, r);
    FirstLineOf(y, t);
    assert r == (x + r)[|x|..] && t == (y + t)[|y|..];
  }

  lemma JoinSplit(lines: seq<string>)
    requires lines != []
    ensures Join(lines) == lines[0] + AfterFirst(lines)
    ensures AfterFirst(lines) == "" <==> |lines| == 1
    ensures |lines| > 1 ==> AfterFirst(lines)[0] == '\n' && AfterFirst(lines)[1..] == Join(lines[1..])
  {
    if |lines| > 1 {
      Break(lines[0], Join(lines[1..]));
    } else {
      Blank(lines[0]);
    }
  }

  lemma Blank(x: string)
    ensures x + "" == x
  {
  }

  lemma Break(x: string, rest: string)
    ensures x + "\n" + rest == x + ("\n" + rest) && ("\n" + rest)[0] == '\n' && ("\n" + rest)[1..] == rest
  {
  }

  predicate AllOneLine(lines: seq<string>) {
    forall i :: 0 <= i < |lines| ==> OneLine(lines[i])
  }

  lemma OneLineTail(lines: seq<string>)
    requires AllOneLine(lines) && lines != []
    ensures AllOneLine(lines[1..])
  {
  }

  lemma SameHeadAndTail(a: seq<string>, b: seq<string>)
    requires a != [] && b != [] && a[0] == b[0] && a[1..] == b[1..]
    ensures a == b
  {
    assert a == [a[0]] + a[1..] && b == [b[0]] + b[1..];
  }

  lemma {:induction false} JoinDetermines(a: seq<string>, b: seq<string>)
    requires a != [] && b != [] && AllOneLine(a) && AllOneLine(b) && Join(a) == Join(b)
    ensures a == b
    decreases |a|
  {
    JoinSplit(a);
    JoinSplit(b);
    assert OneLine(a[0]) && OneLine(b[0]);
    HeadsAgree(a[0], AfterFirst(a), b[0], AfterFirst(b));
    if |a| > 1 {
      OneLineTail(a);
      OneLineTail(b);
      JoinDetermines(a[1..], b[1..]);
      SameHeadAndTail(a, b);
    } else {
      assert |b| == 1;
    }
  }

  /** A receipt's timeline entry; the payload is a dict. */
  datatype TimelineEntry = TimelineEntry(timestamp: nat, kind: string, payload: Value)

  function ToDict(e: TimelineEntry): Value {
    Dict([Entry(Str("timestamp"), Int(e.timestamp)), Entry(Str("type"), Text(e.kind)), Entry(Str("payload"), e.payload)])
  }

  predicate Hashable(timeline: seq<TimelineEntry>) {
    timeline != [] && forall e :: e in timeline ==> e.payload.Dict? && Accepts(e.payload) && WellFormed(e.payload)
  }

  lemma HashableDicts(timeline: seq<TimelineEntry>)
    requires Hashable(timeline)
    ensures forall e :: e in timeline ==> Accepts(ToDict(e)) && WellFormed(ToDict(e))
  {
    forall e | e in timeline ensures Accepts(ToDict(e)) && WellFormed(ToDict(e)) { DictOk(e); }
  }

  lemma DictOk(e: TimelineEntry)
    requires Accepts(e.payload) && WellFormed(e.payload)
    ensures Accepts(ToDict(e)) && WellFormed(ToDict(e))
  {
    var es := ToDict(e).entries;
    assert |"timestamp"| == 9 && |"type"| == 4 && |"payload"| == 7;
    assert es[0].key != es[1].key && es[0].key != es[2].key && es[1].key != es[2].key;
    assert DistinctKeys(es);
    forall x | x in es ensures x.key.Str? && Accepts(x.value) && WellFormed(x.value) {
      assert x == es[0] || x == es[1] || x == es[2];
    }
  }

  /** The text whose UTF-8 bytes a receipt hashes. */
  function ContentText(timeline: seq<TimelineEntry>): string
    requires Hashable(timeline)
  {
    HashableDicts(timeline);
    Join(seq(|timeline|, i requires 0 <= i < |timeline| => assert timeline[i] in timeline; Encode(ToDict(timeline[i]))))
  }

  lemma EntryFields(e: TimelineEntry, f: TimelineEntry)
    requires Accepts(e.payload) && Accepts(f.payload) && Accepts(ToDict(e)) && Accepts(ToDict(f)) && Denote(ToDict(e)) == Denote(ToDict(f))
    ensures e.timestamp == f.timestamp && e.kind == f.kind && Denote(e.payload) == Denote(f.payload)
  {
    EntryMap(e);
    EntryMap(f);
    var m, n := DenoteEntries(ToDict(e).entries), DenoteEntries(ToDict(f).entries);
    assert m["timestamp"] == n["timestamp"] && m["type"] == n["type"] && m["payload"] == n["payload"];
  }

  lemma DenoteAppend(init: seq<Entry>, last: Entry)
    requires (forall x :: x in init ==> GoodEntry(x)) && GoodEntry(last)
    ensures DenoteEntries(init + [last]) == DenoteEntries(init)[last.key.s := DenoteEntry(last)]
  {
    assert (init + [last])[..|init|] == init;
  }

  lemma ThreeEntries(a: Entry, b: Entry, c: Entry)
    requires GoodEntry(a) && GoodEntry(b) && GoodEntry(c)
    ensures (forall x :: x in [a, b, c] ==> GoodEntry(x)) &&
            DenoteEntries([a, b, c]) == map[][a.key.s := DenoteEntry(a)][b.key.s := DenoteEntry(b)][c.key.s := DenoteEntry(c)]
  {
    DenoteAppend([], a);
    DenoteAppend([a], b);
    DenoteAppend([a, b], c);
    assert [] + [a] == [a] && [a] + [b] == [a, b] && [a, b] + [c] == [a, b, c];
  }

  lemma EntryMap(e: TimelineEntry)
    requires Accepts(e.payload) && Accepts(ToDict(e))
    ensures DenoteEntries(ToDict(e).entries) ==
            map["timestamp" := TInt(e.timestamp), "type" := TText(e.kind), "payload" := Denote(e.payload)]
  {
    var a, b, c := Entry(Str("timestamp"), Int(e.timestamp)), Entry(Str("type"), Text(e.kind)), Entry(Str("payload"), e.payload);
    assert GoodEntry(a) && GoodEntry(b) && GoodEntry(c);
    ThreeEntries(a, b, c);
  }

  /** The hashed text determines the whole timeline: number, order, timestamps, types and payloads. */
  lemma ContentTextDetermines(a: seq<TimelineEntry>, b: seq<TimelineEntry>)
    requires Hashable(a) && Hashable(b) && ContentText(a) == ContentText(b)
    ensures |a| == |b|
    ensures forall i :: 0 <= i < |a| ==>
              a[i].timestamp == b[i].timestamp && a[i].kind == b[i].kind && Denote(a[i].payload) == Denote(b[i].payload)
  {
    HashableDicts(a);
    HashableDicts(b);
    var la := seq(|a|, i requires 0 <= i < |a| => assert a[i] in a; Encode(ToDict(a[i])));
    var lb := seq(|b|, i requires 0 <= i < |b| => assert b[i] in b; Encode(ToDict(b[i])));
    forall v: Value | Accepts(v) ensures OneLine(Encode(v)) {
      CanonIsCanon(v);
      PrintOneLine(Canon(v));
    }
    assert ContentText(a) == Join(la) && ContentText(b) == Join(lb);
    JoinDetermines(la, lb);
    forall i | 0 <= i < |a|
      ensures a[i].timestamp == b[i].timestamp && a[i].kind == b[i].kind && Denote(a[i].payload) == Denote(b[i].payload)
    {
      assert a[i] in a && b[i] in b && la[i] == lb[i];
      EncodingIsExact(ToDict(a[i]), ToDict(b[i]));
      EntryFields(a[i], b[i]);
    }
  }
}
