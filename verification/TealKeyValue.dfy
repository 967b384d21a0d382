/** Application state as key-value lists, as Python dictionaries and as K maps
    (adaptors/teal_key_value.py, and the map builders of pyk_utils.py). */
module TealKeyValue {
  import opened Common
  import opened SplitConfig
  import opened Decimal

  /** A value of type 1, of type 2, or one that neither conversion takes. */
  datatype Value = Bytes(b: string) | Uint(n: int) | Other

  datatype KeyValue = KeyValue(key: string, value: Value)

  // ----- Python dictionaries -----

  datatype Entry<V> = Entry(key: string, value: V)

  /** `d[key] = value`, in insertion order. */
  function Put<V>(d: seq<Entry<V>>, e: Entry<V>): seq<Entry<V>> {
    if d == [] then [e]
    else if d[0].key == e.key then [e] + d[1..]
    else [d[0]] + Put(d[1..], e)
  }

  function DictOf<V>(entries: seq<Entry<V>>): seq<Entry<V>> {
    if entries == [] then [] else Put(DictOf(entries[..|entries| - 1]), entries[|entries| - 1])
  }

  ghost predicate DistinctKeys<V>(entries: seq<Entry<V>>) {
    forall i, j :: 0 <= i < j < |entries| ==> entries[i].key != entries[j].key
  }

  ghost predicate HasKey<V>(entries: seq<Entry<V>>, key: string) {
    exists i :: 0 <= i < |entries| && entries[i].key == key
  }

  lemma {:induction false} PutLength<V>(d: seq<Entry<V>>, e: Entry<V>)
    ensures if HasKey(d, e.key) then |Put(d, e)| == |d| else Put(d, e) == d + [e]
    ensures forall k :: HasKey(Put(d, e), k) <==> HasKey(d, k) || k == e.key
  {
    if d == [] {
      assert [e][0] == e;
    } else {
      var p, tail := Put(d, e), d[1..];
      forall k ensures HasKey(d, k) <==> d[0].key == k || HasKey(tail, k) {
        KeyOfHead(d, k);
      }
      if d[0].key != e.key {
        PutLength(tail, e);
        assert p[1..] == Put(tail, e);
      } else {
        assert p[1..] == tail;
      }
      forall k ensures HasKey(p, k) <==> p[0].key == k || HasKey(p[1..], k) {
        KeyOfHead(p, k);
      }
      assert d == [d[0]] + tail;
    }
  }

  lemma KeyOfHead<V>(d: seq<Entry<V>>, k: string)
    requires d != []
    ensures HasKey(d, k) <==> d[0].key == k || HasKey(d[1..], k)
  {
  }

  /** A dictionary filled from a list is that list exactly when no key comes twice. */
  lemma {:induction false} DictIsList<V>(entries: seq<Entry<V>>)
    ensures |DictOf(entries)| <= |entries|
    ensures forall k :: HasKey(DictOf(entries), k) <==> HasKey(entries, k)
    ensures |DictOf(entries)| == |entries| <==> DistinctKeys(entries)
    ensures DistinctKeys(entries) ==> DictOf(entries) == entries
  {
    hide HasKey, Put;
    if entries != [] {
      var front, last := entries[..|entries| - 1], entries[|entries| - 1];
      DictIsList(front);
      PutLength(DictOf(front), last);
      KeysOfLast(front, last);
      assert entries == front + [last];
    } else {
      NoKeys(DictOf(entries), entries);
    }
  }

  lemma NoKeys<V>(a: seq<Entry<V>>, b: seq<Entry<V>>)
    requires a == [] && b == []
    ensures forall k :: HasKey(a, k) <==> HasKey(b, k)
  {
  }

  lemma KeysOfLast<V>(front: seq<Entry<V>>, last: Entry<V>)
    ensures forall k :: HasKey(front + [last], k) <==> HasKey(front, k) || k == last.key
    ensures DistinctKeys(front + [last]) <==> DistinctKeys(front) && !HasKey(front, last.key)
  {
    var all := front + [last];
    assert all[|front|] == last;
    assert forall i :: 0 <= i < |front| ==> all[i] == front[i];
  }

  // ----- lists to dictionaries -----

  function ByteEntries(l: seq<KeyValue>): seq<Entry<string>> {
    if l == [] then [] else
      var last := l[|l| - 1];
      ByteEntries(l[..|l| - 1]) + if last.value.Bytes? then [Entry(last.key, last.value.b)] else []
  }

  function IntEntries(l: seq<KeyValue>): seq<Entry<int>> {
    if l == [] then [] else
      var last := l[|l| - 1];
      IntEntries(l[..|l| - 1]) + if last.value.Uint? then [Entry(last.key, last.value.n)] else []
  }

  method ListStateToDictBytesBytes(l: seq<KeyValue>) returns (d: seq<Entry<string>>)
    ensures d == DictOf(ByteEntries(l))
  {
    hide Put;
    d := [];
    for i := 0 to |l|
      invariant d == DictOf(ByteEntries(l[..i]))
    {
      assert l[..i + 1][..i] == l[..i];
      if l[i].value.Bytes? {
        var e := Entry(l[i].key, l[i].value.b);
        assert (ByteEntries(l[..i]) + [e])[..|ByteEntries(l[..i])|] == ByteEntries(l[..i]);
        d := Put(d, e);
      } else {
        assert ByteEntries(l[..i]) + [] == ByteEntries(l[..i]);
      }
    }
    assert l[..|l|] == l;
  }

  method ListStateToDictBytesInts(l: seq<KeyValue>) returns (d: seq<Entry<int>>)
    ensures d == DictOf(IntEntries(l))
  {
    hide Put;
    d := [];
    for i := 0 to |l|
      invariant d == DictOf(IntEntries(l[..i]))
    {
      assert l[..i + 1][..i] == l[..i];
      if l[i].value.Uint? {
        var e := Entry(l[i].key, l[i].value.n);
        assert (IntEntries(l[..i]) + [e])[..|IntEntries(l[..i])|] == IntEntries(l[..i]);
        d := Put(d, e);
      } else {
        assert IntEntries(l[..i]) + [] == IntEntries(l[..i]);
      }
    }
    assert l[..|l|] == l;
  }

  // ----- dictionaries to K maps -----

  function Quoted(s: string): string { "b\"" + s + "\"" }

  /** Python's slice `[2:-1]`. */
  function Unquoted(token: string): string {
    if |token| < 3 then "" else token[2..|token| - 1]
  }

  function StrInt(v: int): string {
    if v < 0 then "-" + Str(-v) else Str(v)
  }

  predicate IsNumeral(s: string) {
    s != "" && forall i :: 0 <= i < |s| ==> '0' <= s[i] <= '9'
  }

  /** None is a ValueError. */
  function ParseInt(s: string): Option<int> {
    if IsNumeral(s) then Some(ParseNat(s))
    else if s != "" && s[0] == '-' && IsNumeral(s[1..]) then
      var n: int := ParseNat(s[1..]);
      Some(-n)
    else None
  }

  lemma ParseIntStr(v: int)
    ensures ParseInt(StrInt(v)) == Some(v)
  {
    hide Str, ParseNat;
    if v < 0 {
      ParseStr(-v);
      assert StrInt(v)[1..] == Str(-v);
    } else {
      ParseStr(v);
    }
  }

  function ItemTerm(key: string, token: string, sort: string): K {
    KApply("_|->_", [KToken(Quoted(key), "Bytes"), KToken(token, sort)])
  }

  /** One `_Map_` application for two or more items, nested to the right. */
  function BuildAssoc(items: seq<K>): K {
    if items == [] then KApply(".Map", [])
    else if |items| == 1 then items[0]
    else KApply("_Map_", [items[0], BuildAssoc(items[1..])])
  }

  function MapBytesBytes(d: seq<Entry<string>>): K {
    BuildAssoc(seq(|d|, i requires 0 <= i < |d| => ItemTerm(d[i].key, Quoted(d[i].value), "Bytes")))
  }

  function MapBytesInts(d: seq<Entry<int>>): K {
    BuildAssoc(seq(|d|, i requires 0 <= i < |d| => ItemTerm(d[i].key, StrInt(d[i].value), "Int")))
  }

  // ----- K maps to lists -----

  /** None: the term has no label, an item has no token, or an `Int` token is no number. */
  function Parse(term: K): Option<seq<KeyValue>> {
    if !term.KApply? then None
    else if term.name == "_|->_" then
      if |term.args| < 2 || !term.args[1].KToken? then None
      else if term.args[1].sort == "Bytes" then
        if !term.args[0].KToken? then None else
          Some([KeyValue(Unquoted(term.args[0].token), Bytes(Unquoted(term.args[1].token)))])
      else if term.args[1].sort == "Int" then
        if !term.args[0].KToken? || ParseInt(term.args[1].token).None? then None else
          Some([KeyValue(Unquoted(term.args[0].token), Uint(ParseInt(term.args[1].token).value))])
      else Some([])
    else if term.name == "_Map_" then
      if |term.args| < 2 then None else Join(Parse(term.args[0]), Parse(term.args[1]))
    else Some([])
  }

  function Join(a: Option<seq<KeyValue>>, b: Option<seq<KeyValue>>): Option<seq<KeyValue>> {
    if a.Some? && b.Some? then Some(a.value + b.value) else None
  }

  /** The items of a tree of `_Map_` applications, left to right; empty maps have none. */
  function MapLeaves(term: K): seq<K> {
    if term.KApply? && term.name == "_Map_" && 2 <= |term.args| then
      MapLeaves(term.args[0]) + MapLeaves(term.args[1])
    else if term == KApply(".Map", []) then []
    else [term]
  }

  function ParseAll(terms: seq<K>): Option<seq<KeyValue>> {
    if terms == [] then Some([]) else Join(Parse(terms[0]), ParseAll(terms[1..]))
  }

  lemma JoinAssociative(a: Option<seq<KeyValue>>, b: Option<seq<KeyValue>>, c: Option<seq<KeyValue>>)
    ensures Join(Join(a, b), c) == Join(a, Join(b, c))
    ensures Join(Some([]), a) == a == Join(a, Some([]))
  {
    if a.Some? && b.Some? && c.Some? {
      assert a.value + b.value + c.value == a.value + (b.value + c.value);
    }
    if a.Some? {
      assert [] + a.value == a.value == a.value + [];
    }
  }

  lemma {:induction false} ParseAllConcat(a: seq<K>, b: seq<K>)
    ensures ParseAll(a + b) == Join(ParseAll(a), ParseAll(b))
  {
    hide Parse, Join;
    if a == [] {
      assert a + b == b;
      JoinAssociative(ParseAll(b), None, None);
    } else {
      assert (a + b)[1..] == a[1..] + b;
      ParseAllConcat(a[1..], b);
      JoinAssociative(Parse(a[0]), ParseAll(a[1..]), ParseAll(b));
    }
  }

  /** The parsed list depends on the items and their order only, not on how the map is nested. */
  lemma {:induction false} ParseByLeaves(term: K)
    ensures Parse(term) == ParseAll(MapLeaves(term))
  {
    hide ParseInt, Unquoted, Join;
    if term.KApply? && term.name == "_Map_" && 2 <= |term.args| {
      ParseByLeaves(term.args[0]);
      ParseByLeaves(term.args[1]);
      ParseAllConcat(MapLeaves(term.args[0]), MapLeaves(term.args[1]));
    } else if term != KApply(".Map", []) {
      assert [term][1..] == [];
      JoinAssociative(Parse(term), None, None);
    }
  }

  lemma AnyNesting(s: K, t: K)
    requires MapLeaves(s) == MapLeaves(t)
    ensures Parse(s) == Parse(t)
  {
    ParseByLeaves(s);
    ParseByLeaves(t);
  }

  ghost predicate AreItems(items: seq<K>) {
    forall i :: 0 <= i < |items| ==> items[i].KApply? && items[i].name == "_|->_"
  }

  lemma {:induction false} LeavesOfAssoc(items: seq<K>)
    requires AreItems(items)
    ensures MapLeaves(BuildAssoc(items)) == items
  {
    if 1 < |items| {
      LeavesOfAssoc(items[1..]);
      assert MapLeaves(items[0]) == [items[0]];
    } else if |items| == 1 {
      assert items == [items[0]];
    }
  }

  // ----- round trips -----

  function ByteValues(d: seq<Entry<string>>): (l: seq<KeyValue>)
    ensures |l| == |d|
  {
    seq(|d|, i requires 0 <= i < |d| => KeyValue(d[i].key, Bytes(d[i].value)))
  }

  function IntValues(d: seq<Entry<int>>): (l: seq<KeyValue>)
    ensures |l| == |d|
  {
    seq(|d|, i requires 0 <= i < |d| => KeyValue(d[i].key, Uint(d[i].value)))
  }

  lemma UnquoteQuoted(s: string)
    ensures Unquoted(Quoted(s)) == s
  {
  }

  lemma {:induction false} ParseItems(terms: seq<K>, l: seq<KeyValue>)
    requires |terms| == |l|
    requires forall i :: 0 <= i < |l| ==> Parse(terms[i]) == Some([l[i]])
    ensures ParseAll(terms) == Some(l)
  {
    hide Parse;
    if terms != [] {
      ParseItems(terms[1..], l[1..]);
      assert [l[0]] + l[1..] == l;
    }
  }

  lemma ParseMapBytes(d: seq<Entry<string>>)
    ensures Parse(MapBytesBytes(d)) == Some(ByteValues(d))
  {
    hide Quoted, Unquoted, Parse, ParseInt, BuildAssoc;
    var items := seq(|d|, i requires 0 <= i < |d| => ItemTerm(d[i].key, Quoted(d[i].value), "Bytes"));
    forall i | 0 <= i < |d| ensures Parse(items[i]) == Some([ByteValues(d)[i]]) {
      ParseByteItem(d[i]);
    }
    ParseItems(items, ByteValues(d));
    LeavesOfAssoc(items);
    ParseByLeaves(MapBytesBytes(d));
  }

  lemma ParseByteItem(e: Entry<string>)
    ensures Parse(ItemTerm(e.key, Quoted(e.value), "Bytes")) == Some([KeyValue(e.key, Bytes(e.value))])
  {
  }

  lemma ParseMapInts(d: seq<Entry<int>>)
    ensures Parse(MapBytesInts(d)) == Some(IntValues(d))
  {
    hide Quoted, Unquoted, Parse, ParseInt, BuildAssoc, StrInt;
    var items := seq(|d|, i requires 0 <= i < |d| => ItemTerm(d[i].key, StrInt(d[i].value), "Int"));
    forall i | 0 <= i < |d| ensures Parse(items[i]) == Some([IntValues(d)[i]]) {
      ParseIntItem(d[i]);
    }
    ParseItems(items, IntValues(d));
    LeavesOfAssoc(items);
    ParseByLeaves(MapBytesInts(d));
  }

  lemma ParseIntItem(e: Entry<int>)
    ensures Parse(ItemTerm(e.key, StrInt(e.value), "Int")) == Some([KeyValue(e.key, Uint(e.value))])
  {
    hide StrInt, ParseInt;
    UnquoteQuoted(e.key);
    ParseIntStr(e.value);
  }

  /** The numbers and then the byte strings of a list, each in the order of the list. */
  function Partition(l: seq<KeyValue>): seq<KeyValue> {
    IntValues(IntEntries(l)) + ByteValues(ByteEntries(l))
  }

  /** What an application's state becomes on its way through the two K maps and back
      (adaptors/algod_application.py:36-38, 69-70). */
  function Through(l: seq<KeyValue>): Option<seq<KeyValue>> {
    Join(Parse(MapBytesInts(DictOf(IntEntries(l)))), Parse(MapBytesBytes(DictOf(ByteEntries(l)))))
  }

  /** It comes back as its stable partition by type exactly when no key comes twice with the same
      type; a number and a byte string may share a key. */
  lemma ThroughIsPartition(l: seq<KeyValue>)
    ensures Through(l) == Some(Partition(l)) <==> DistinctKeys(IntEntries(l)) && DistinctKeys(ByteEntries(l))
  {
    hide Parse, MapBytesInts, MapBytesBytes, DictOf, IntEntries, ByteEntries, DistinctKeys;
    var ints, bytes := IntEntries(l), ByteEntries(l);
    ParseMapInts(DictOf(ints));
    ParseMapBytes(DictOf(bytes));
    DictIsList(ints);
    DictIsList(bytes);
    if Through(l) == Some(Partition(l)) {
      assert |DictOf(ints)| + |DictOf(bytes)| == |ints| + |bytes|;
    }
  }

  // ----- what is selected, and what it looks like -----

  /** The items of each type, in the order of the list, and nothing else. */
  lemma EntriesAre(a: seq<KeyValue>, b: seq<KeyValue>, key: string, bytes: string, n: int)
    ensures ByteEntries(a + b) == ByteEntries(a) + ByteEntries(b)
    ensures IntEntries(a + b) == IntEntries(a) + IntEntries(b)
    ensures ByteEntries([KeyValue(key, Bytes(bytes))]) == [Entry(key, bytes)]
    ensures IntEntries([KeyValue(key, Uint(n))]) == [Entry(key, n)]
    ensures ByteEntries([KeyValue(key, Uint(n))]) == [] && IntEntries([KeyValue(key, Bytes(bytes))]) == []
    ensures ByteEntries([KeyValue(key, Other)]) == [] && IntEntries([KeyValue(key, Other)]) == []
  {
    ByteEntriesConcat(a, b);
    IntEntriesConcat(a, b);
    assert forall v :: [KeyValue(key, v)][..0] == [];
  }

  lemma {:induction false} ByteEntriesConcat(a: seq<KeyValue>, b: seq<KeyValue>)
    ensures ByteEntries(a + b) == ByteEntries(a) + ByteEntries(b)
  {
    if b == [] {
      assert a + b == a;
    } else {
      assert (a + b)[..|a + b| - 1] == a + b[..|b| - 1];
      ByteEntriesConcat(a, b[..|b| - 1]);
    }
  }

  lemma {:induction false} IntEntriesConcat(a: seq<KeyValue>, b: seq<KeyValue>)
    ensures IntEntries(a + b) == IntEntries(a) + IntEntries(b)
  {
    if b == [] {
      assert a + b == a;
    } else {
      assert (a + b)[..|a + b| - 1] == a + b[..|b| - 1];
      IntEntriesConcat(a, b[..|b| - 1]);
    }
  }

  /** A repeated key keeps its first place and takes the value given last. */
  lemma {:induction false} PutAt<V>(d: seq<Entry<V>>, e: Entry<V>, i: nat)
    requires i < |d| && d[i].key == e.key && forall j :: 0 <= j < i ==> d[j].key != e.key
    ensures Put(d, e) == d[i := e]
  {
    if i != 0 {
      PutAt(d[1..], e, i - 1);
    }
  }

  /** The terms of empty, single and longer maps. */
  lemma MapTerms(key: string, bytes: string, n: int, more: seq<Entry<int>>)
    requires more != []
    ensures MapBytesBytes([]) == KApply(".Map", []) == MapBytesInts([])
    ensures MapBytesBytes([Entry(key, bytes)])
         == KApply("_|->_", [KToken("b\"" + key + "\"", "Bytes"), KToken("b\"" + bytes + "\"", "Bytes")])
    ensures MapBytesInts([Entry(key, n)]) == KApply("_|->_", [KToken("b\"" + key + "\"", "Bytes"),
      KToken(if n < 0 then "-" + Str(-n) else Str(n), "Int")])
    ensures MapBytesInts([Entry(key, n)] + more)
         == KApply("_Map_", [MapBytesInts([Entry(key, n)]), MapBytesInts(more)])
  {
    hide Str;
    var d := [Entry(key, n)] + more;
    var items := seq(|d|, i requires 0 <= i < |d| => ItemTerm(d[i].key, StrInt(d[i].value), "Int"));
    assert items[1..] == seq(|more|, i requires 0 <= i < |more| => ItemTerm(more[i].key, StrInt(more[i].value), "Int"));
  }

  /** Items of other sorts, and terms that are neither items nor maps, are skipped. */
  lemma OthersSkipped(term: K)
    requires term.KApply?
    requires term.name != "_|->_" || (2 <= |term.args| && term.args[1].KToken? && term.args[1].sort != "Bytes"
                                      && term.args[1].sort != "Int")
    requires term.name != "_Map_"
    ensures Parse(term) == Some([])
  {
  }

  /** Where the parser fails: on a term without a label, a map or an item with too few arguments, an item
      whose value is no token, a number that cannot be read, and wherever a part of a map fails. */
  lemma MalformedFails(term: K)
    ensures !term.KApply? ==> Parse(term).None?
    ensures term.KApply? && term.name in {"_|->_", "_Map_"} && |term.args| < 2 ==> Parse(term).None?
    ensures term.KApply? && term.name == "_|->_" && 2 <= |term.args| ==>
      var key, value := term.args[0], term.args[1];
      && (!value.KToken? ==> Parse(term).None?)
      && (value.KToken? && value.sort in {"Bytes", "Int"} && !key.KToken? ==> Parse(term).None?)
      && (value.KToken? && value.sort == "Int" && ParseInt(value.token).None? ==> Parse(term).None?)
    ensures term.KApply? && term.name == "_Map_" && 2 <= |term.args| ==>
      (Parse(term.args[0]).None? || Parse(term.args[1]).None? ==> Parse(term).None?)
  {
    hide ParseInt, Unquoted;
  }
}
