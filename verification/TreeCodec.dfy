/** Reading and writing translation files (crates/i18n/src/translations.rs): metadata of the entry
    `key` travels in a sibling entry `@key`. */
module TreeCodec {
  import opened Text
  import opened Translations
  import Order
  import Sprintf

  datatype Json = JNull | JScalar | JString(text: string) | JArray(items: seq<Json>) | JObject(entries: seq<Entry>)

  datatype Entry = Entry(key: string, json: Json)

  predicate IsMeta(key: string) { key != [] && key[0] == '@' }

  // ---------------------------------------------------------------- serializer

  ghost function SerializeMetadata(m: Metadata): Json {
    var context := Join(Order.Sorted(m.contextLocations), ", ");
    JObject((if context != "" then [Entry("context", JString(context))] else [])
            + (if m.description.Some? then [Entry("description", JString(m.description.value))] else []))
  }

  ghost function SerializeValue(v: Value): Json
    decreases v
  {
    match v
    case Leaf(m) => JString(Sprintf.Print(m))
    case Branch(t) => JObject(Entries(t, Order.Sorted(t.inner.Keys)))
  }

  /** The entries of the given keys, in order. */
  ghost function Entries(t: Tree, keys: seq<string>): seq<Entry>
    requires forall k :: k in keys ==> k in t.inner
    decreases t, |keys|
  {
    if keys == [] then []
    else
      var k := keys[|keys| - 1];
      Entries(t, keys[..|keys| - 1]) + EntriesOf(k, SerializeValue(t.inner[k].value), t.inner[k].metadata)
  }

  ghost function EntriesOf(k: string, value: Json, metadata: Option<Metadata>): seq<Entry> {
    [Entry(k, value)] + if metadata.Some? then [Entry("@" + k, SerializeMetadata(metadata.value))] else []
  }

  ghost function Serialize(t: Tree): Json { SerializeValue(Branch(t)) }

  // ---------------------------------------------------------------- deserializer

  datatype Field = Absent | Present(value: Option<string>)

  function FieldOf(j: Json): Option<Field> {
    match j
    case JString(s) => Some(Present(Some(s)))
    case JNull => Some(Present(None))
    case _ => None
  }

  /** The derived reader of `Metadata`: unknown fields are skipped, a repeated one is an error. */
  function DescriptionField(entries: seq<Entry>): Option<Field> {
    if entries == [] then Some(Absent)
    else
      var last := entries[|entries| - 1];
      var before := DescriptionField(entries[..|entries| - 1]);
      if last.key != "description" then before
      else if before != Some(Absent) then None
      else FieldOf(last.json)
  }

  function Described(field: Option<Field>): Option<Metadata> {
    match field
    case None => None
    case Some(Absent) => Some(Metadata({}, None))
    case Some(Present(d)) => Some(Metadata({}, d))
  }

  /** An object, or an array of the one field that is read. */
  function ParseMetadata(j: Json): Option<Metadata> {
    match j
    case JObject(entries) => Described(DescriptionField(entries))
    case JArray(items) => if |items| == 1 then Described(FieldOf(items[0])) else None
    case _ => None
  }

  datatype Collected = Collected(values: map<string, Value>, metas: map<string, Metadata>)

  /** The two maps of the visitor after the first `n` entries. */
  function Collect(j: Json, n: nat): Option<Collected>
    requires j.JObject? && n <= |j.entries|
    decreases j, n
  {
    if n == 0 then Some(Collected(map[], map[]))
    else
      match Collect(j, n - 1)
      case None => None
      case Some(c) =>
        var e := j.entries[n - 1];
        if IsMeta(e.key) then
          match ParseMetadata(e.json)
          case None => None
          case Some(m) => Some(c.(metas := c.metas[e.key[1..] := m]))
        else
          match ParseValue(e.json)
          case None => None
          case Some(v) => Some(c.(values := c.values[e.key := v]))
  }

  /** Metadata is attached to the entries that exist; the rest is dropped. */
  function Attach(c: Collected): Tree {
    Tree(map k | k in c.values :: Node(if k in c.metas then Some(c.metas[k]) else None, c.values[k]))
  }

  function ParseLeaf(s: string): Option<Value> {
    match Sprintf.Parse(s)
    case None => None
    case Some(m) => Some(Leaf(m))
  }

  function ParseValue(j: Json): Option<Value>
    decreases j, if j.JObject? then |j.entries| + 1 else 0
  {
    match j
    case JString(s) => ParseLeaf(s)
    case JObject(entries) =>
      (match Collect(j, |entries|)
       case None => None
       case Some(c) => Some(Branch(Attach(c))))
    case _ => None
  }

  function ParseTree(j: Json): Option<Tree> {
    if j.JObject? && ParseValue(j).Some? then Some(ParseValue(j).value.tree) else None
  }

  // ---------------------------------------------------------------- round trip

  function StripMetadata(m: Option<Metadata>): Option<Metadata> {
    if m.Some? then Some(m.value.(contextLocations := {})) else None
  }

  /** The same tree with the locations cleared. */
  function Strip(v: Value): Value {
    match v
    case Leaf(_) => v
    case Branch(t) =>
      Branch(Tree(map k | k in t.inner :: Node(StripMetadata(t.inner[k].metadata), Strip(t.inner[k].value))))
  }

  /** The same tree with the locations cleared and every message as its text is read. */
  function Reread(v: Value): Value {
    match v
    case Leaf(m) => if ParseLeaf(Sprintf.Print(m)).Some? then ParseLeaf(Sprintf.Print(m)).value else v
    case Branch(t) =>
      Branch(Tree(map k | k in t.inner :: Node(StripMetadata(t.inner[k].metadata), Reread(t.inner[k].value))))
  }

  /** Every printed message parses and no key could be taken for metadata, at any depth. */
  predicate Legible(v: Value) {
    match v
    case Leaf(m) => Sprintf.Parse(Sprintf.Print(m)).Some?
    case Branch(t) => forall k :: k in t.inner ==> !IsMeta(k) && Legible(t.inner[k].value)
  }

  /** Every message is normal and no key could be taken for metadata, at any depth. */
  predicate Writable(v: Value) {
    match v
    case Leaf(m) => Sprintf.Normal(m)
    case Branch(t) => forall k :: k in t.inner ==> !IsMeta(k) && Writable(t.inner[k].value)
  }

  lemma DescriptionSnoc(entries: seq<Entry>, e: Entry)
    ensures e.key != "description" ==> DescriptionField(entries + [e]) == DescriptionField(entries)
    ensures e.key == "description" && DescriptionField(entries) == Some(Absent) && e.json.JString? ==>
      DescriptionField(entries + [e]) == Some(Present(Some(e.json.text)))
  {
    assert (entries + [e])[..|entries|] == entries;
  }

  lemma MetadataRoundTrip(m: Metadata)
    ensures ParseMetadata(SerializeMetadata(m)) == Some(m.(contextLocations := {}))
  {
    var context := Join(Order.Sorted(m.contextLocations), ", ");
    var first := if context != "" then [Entry("context", JString(context))] else [];
    DescriptionSnoc([], Entry("context", JString(context)));
    assert [] + [Entry("context", JString(context))] == [Entry("context", JString(context))];
    assert DescriptionField(first) == Some(Absent);
    if m.description.Some? {
      DescriptionSnoc(first, Entry("description", JString(m.description.value)));
    } else {
      assert SerializeMetadata(m).entries == first;
    }
  }

  /** What comes after the first `n` entries does not matter to them. */
  lemma {:induction false} CollectPrefix(a: Json, b: Json, n: nat)
    requires a.JObject? && b.JObject? && n <= |a.entries| && n <= |b.entries|
    requires a.entries[..n] == b.entries[..n]
    ensures Collect(a, n) == Collect(b, n)
  {
    if n > 0 {
      assert a.entries[..n][n - 1] == b.entries[..n][n - 1];
      assert a.entries[..n - 1] == a.entries[..n][..n - 1] == b.entries[..n - 1];
      CollectPrefix(a, b, n - 1);
    }
  }

  function Kept(t: Tree, keys: seq<string>): Collected
    requires forall k :: k in keys ==> k in t.inner
  {
    Collected(map k | k in keys :: Reread(t.inner[k].value),
              map k | k in keys && t.inner[k].metadata.Some? :: StripMetadata(t.inner[k].metadata).value)
  }

  lemma {:induction false} CollectEntries(t: Tree, keys: seq<string>)
    requires forall k :: k in keys ==> k in t.inner && !IsMeta(k) && Legible(t.inner[k].value)
    ensures Collect(JObject(Entries(t, keys)), |Entries(t, keys)|) == Some(Kept(t, keys))
    decreases t, |keys|
  {
    if keys != [] {
      var front, k := keys[..|keys| - 1], keys[|keys| - 1];
      assert keys == front + [k];
      CollectEntries(t, front);
      ValueRoundTrip(t.inner[k].value);
      var es, es0 := Entries(t, keys), Entries(t, front);
      assert es[..|es0|] == es0;
      CollectPrefix(JObject(es), JObject(es0), |es0|);
      CollectOwn(t, keys, es, |es0|);
    }
  }

  lemma KeptSnoc(t: Tree, front: seq<string>, k: string)
    requires forall k' :: k' in front + [k] ==> k' in t.inner
    ensures Kept(t, front + [k]).values == Kept(t, front).values[k := Reread(t.inner[k].value)]
    ensures t.inner[k].metadata.None? ==> Kept(t, front + [k]).metas == Kept(t, front).metas
    ensures t.inner[k].metadata.Some? ==>
      Kept(t, front + [k]).metas == Kept(t, front).metas[k := StripMetadata(t.inner[k].metadata).value]
  {
  }

  lemma CollectOwn(t: Tree, keys: seq<string>, es: seq<Entry>, n: nat)
    requires keys != [] && forall k :: k in keys ==> k in t.inner && !IsMeta(k)
    requires var k := keys[|keys| - 1];
      && n <= |es| && es[n..] == EntriesOf(k, SerializeValue(t.inner[k].value), t.inner[k].metadata)
      && ParseValue(SerializeValue(t.inner[k].value)) == Some(Reread(t.inner[k].value))
      && Collect(JObject(es), n) == Some(Kept(t, keys[..|keys| - 1]))
    ensures Collect(JObject(es), |es|) == Some(Kept(t, keys))
  {
    hide Kept, Reread, SerializeValue, ParseValue, SerializeMetadata, ParseMetadata, StripMetadata;
    var front, k := keys[..|keys| - 1], keys[|keys| - 1];
    assert keys == front + [k];
    KeptSnoc(t, front, k);
    assert es[n] == es[n..][0];
    if t.inner[k].metadata.Some? {
      assert es[n + 1] == es[n..][1];
      MetadataKept(t.inner[k].metadata);
      assert ("@" + k)[1..] == k;
    }
  }

  lemma MetadataKept(m: Option<Metadata>)
    requires m.Some?
    ensures StripMetadata(m).Some?
    ensures ParseMetadata(SerializeMetadata(m.value)) == Some(StripMetadata(m).value)
  {
    MetadataRoundTrip(m.value);
  }

  lemma {:induction false} ValueRoundTrip(v: Value)
    requires Legible(v)
    ensures ParseValue(SerializeValue(v)) == Some(Reread(v))
    decreases v
  {
    match v
    case Leaf(m) => LeafRoundTrip(m);
    case Branch(t) =>
      hide Kept, Attach, Reread, Entries, Collect;
      var keys := Order.Sorted(t.inner.Keys);
      LegibleKeys(t, keys);
      CollectEntries(t, keys);
      AttachKept(t, keys);
  }

  lemma LeafRoundTrip(m: Message)
    requires Legible(Leaf(m))
    ensures ParseValue(SerializeValue(Leaf(m))) == Some(Reread(Leaf(m)))
  {
    hide Sprintf.Parse, Sprintf.Print;
  }

  lemma LegibleKeys(t: Tree, keys: seq<string>)
    requires Legible(Branch(t)) && forall k :: k in keys <==> k in t.inner
    ensures forall k :: k in keys ==> !IsMeta(k) && Legible(t.inner[k].value)
  {
  }

  lemma AttachKept(t: Tree, keys: seq<string>)
    requires forall k :: k in keys <==> k in t.inner
    ensures Branch(Attach(Kept(t, keys))) == Reread(Branch(t))
  {
    SameKeys(t, keys);
    hide Attach, Kept, Reread;
    var a, b := Attach(Kept(t, keys)), Reread(Branch(t)).tree;
    forall k | k in t.inner ensures k in a.inner && k in b.inner && a.inner[k] == b.inner[k] {
      AttachedNode(t, keys, k);
    }
    SameTree(a, b);
  }

  lemma SameTree(a: Tree, b: Tree)
    requires a.inner.Keys == b.inner.Keys && forall k :: k in a.inner ==> a.inner[k] == b.inner[k]
    ensures a == b
  {
    assert a.inner == b.inner;
  }

  lemma SameKeys(t: Tree, keys: seq<string>)
    requires forall k :: k in keys <==> k in t.inner
    ensures Reread(Branch(t)).Branch?
    ensures Attach(Kept(t, keys)).inner.Keys == t.inner.Keys == Reread(Branch(t)).tree.inner.Keys
  {
  }

  lemma AttachedNode(t: Tree, keys: seq<string>, k: string)
    requires (forall k :: k in keys <==> k in t.inner) && k in t.inner
    ensures Reread(Branch(t)).Branch? && k in Attach(Kept(t, keys)).inner && k in Reread(Branch(t)).tree.inner
    ensures Attach(Kept(t, keys)).inner[k] == Reread(Branch(t)).tree.inner[k]
  {
    assert k in keys;
  }

  /** Whatever is read is writable: no `@` key survives and every message parsed. */
  lemma {:induction false} ParsedIsWritable(j: Json)
    requires ParseValue(j).Some?
    ensures Writable(ParseValue(j).value)
    decreases j, if j.JObject? then |j.entries| + 1 else 0
  {
    if j.JObject? {
      CollectedIsWritable(j, |j.entries|);
    } else {
      Sprintf.ParsedIsNormal(j.text);
    }
  }

  lemma {:induction false} CollectedIsWritable(j: Json, n: nat)
    requires j.JObject? && n <= |j.entries| && Collect(j, n).Some?
    ensures forall k :: k in Collect(j, n).value.values ==> !IsMeta(k) && Writable(Collect(j, n).value.values[k])
    decreases j, n
  {
    if n > 0 {
      CollectedIsWritable(j, n - 1);
      if !IsMeta(j.entries[n - 1].key) {
        ParsedIsWritable(j.entries[n - 1].json);
      }
    }
  }

  lemma {:induction false} StripKeepsWritable(v: Value)
    ensures Writable(Strip(v)) <==> Writable(v)
  {
    if v.Branch? {
      forall k | k in v.tree.inner ensures Writable(Strip(v.tree.inner[k].value)) <==> Writable(v.tree.inner[k].value) {
        StripKeepsWritable(v.tree.inner[k].value);
      }
      assert forall k :: k in v.tree.inner <==> k in Strip(v).tree.inner;
      if Writable(v) {
        forall k | k in Strip(v).tree.inner ensures !IsMeta(k) && Writable(Strip(v).tree.inner[k].value) {
          assert k in v.tree.inner;
        }
      }
      if Writable(Strip(v)) {
        forall k | k in v.tree.inner ensures !IsMeta(k) && Writable(v.tree.inner[k].value) {
          assert k in Strip(v).tree.inner;
        }
      }
    }
  }

  /** Writable trees are legible, and reading changes none of their messages. */
  lemma {:induction false} WritableRereads(v: Value)
    requires Writable(v)
    ensures Legible(v) && Reread(v) == Strip(v)
  {
    match v
    case Leaf(m) => Sprintf.ParseUndoesPrintIff(m);
    case Branch(t) =>
      forall k | k in t.inner
        ensures !IsMeta(k) && Legible(t.inner[k].value) && Reread(t.inner[k].value) == Strip(t.inner[k].value)
      {
        WritableRereads(t.inner[k].value);
      }
      assert Reread(v).tree.inner == Strip(v).tree.inner;
  }

  /** What a legible tree is read as is writable, so that later trips are exact. */
  lemma {:induction false} RereadIsWritableIff(v: Value)
    ensures Writable(Reread(v)) <==> Legible(v)
  {
    match v
    case Leaf(m) => RereadLeaf(m);
    case Branch(t) =>
      var r := Reread(v).tree;
      assert r.inner.Keys == t.inner.Keys;
      forall k | k in t.inner
        ensures Writable(r.inner[k].value) <==> Legible(t.inner[k].value)
      {
        RereadIsWritableIff(t.inner[k].value);
      }
      if Writable(Reread(v)) {
        forall k | k in t.inner ensures !IsMeta(k) && Legible(t.inner[k].value) {
          assert k in r.inner;
        }
      }
      if Legible(v) {
        forall k | k in r.inner ensures !IsMeta(k) && Writable(r.inner[k].value) {
          assert k in t.inner;
        }
      }
  }

  lemma RereadLeaf(m: Message)
    ensures Writable(Reread(Leaf(m))) <==> Legible(Leaf(m))
  {
    hide Sprintf.Parse, Sprintf.Print, Sprintf.Normal;
    if Legible(Leaf(m)) {
      Sprintf.ParsedIsNormal(Sprintf.Print(m));
    } else {
      Sprintf.ParseUndoesPrintIff(m);
    }
  }

  /** No text of a message contains a `%`, and names are identifiers, at any depth. */
  predicate AllSpelt(v: Value) {
    match v
    case Leaf(m) => Sprintf.Spelt(m)
    case Branch(t) => forall k :: k in t.inner ==> AllSpelt(t.inner[k].value)
  }

  /** Every message is readable and no key could be taken for metadata, at any depth. */
  predicate AllReadable(v: Value) {
    match v
    case Leaf(m) => Sprintf.Readable(m)
    case Branch(t) => forall k :: k in t.inner ==> !IsMeta(k) && AllReadable(t.inner[k].value)
  }

  /** Of such trees exactly the readable ones are legible. */
  lemma {:induction false} LegibleIff(v: Value)
    requires AllSpelt(v)
    ensures Legible(v) <==> AllReadable(v)
  {
    match v
    case Leaf(m) => RereadsAsNormalForm(m);
    case Branch(t) =>
      forall k | k in t.inner ensures Legible(t.inner[k].value) <==> AllReadable(t.inner[k].value) {
        LegibleIff(t.inner[k].value);
      }
  }

  lemma RereadsAsNormalForm(m: Message)
    requires Sprintf.Spelt(m)
    ensures Legible(Leaf(m)) <==> Sprintf.Readable(m)
    ensures Sprintf.Readable(m) ==> Reread(Leaf(m)) == Leaf(Sprintf.NormalForm(m))
  {
    Sprintf.ReadsAsNormalForm(m);
    hide Sprintf.Parse, Sprintf.Print, Sprintf.Readable, Sprintf.NormalForm;
  }

  lemma ShapesKept(t: Tree)
    ensures Strip(Branch(t)).Branch? && Reread(Branch(t)).Branch?
    ensures Serialize(t) == SerializeValue(Branch(t)) && Serialize(t).JObject?
  {
  }

  lemma ParsedTree(j: Json, v: Value)
    requires j.JObject? && v.Branch?
    ensures ParseTree(j) == Some(v.tree) <==> ParseValue(j) == Some(v)
  {
    hide Collect;
  }

  /** A written tree is read with the locations cleared and each message as its text is read, exactly
      if no key is an `@` key and every printed message parses. */
  lemma ReadsBackIff(t: Tree)
    ensures Reread(Branch(t)).Branch?
    ensures ParseTree(Serialize(t)) == Some(Reread(Branch(t)).tree) <==> Legible(Branch(t))
  {
    ShapesKept(t);
    hide Writable, Legible, Reread, Strip, Serialize, SerializeValue, ParseValue, ParseTree;
    ParsedTree(Serialize(t), Reread(Branch(t)));
    if Legible(Branch(t)) {
      ValueRoundTrip(Branch(t));
    }
    if ParseValue(Serialize(t)) == Some(Reread(Branch(t))) {
      ParsedIsWritable(Serialize(t));
      RereadIsWritableIff(Branch(t));
    }
  }

  /** Reading back what was written gives the same tree with only the locations cleared, exactly
      for the trees whose keys are not `@` keys and whose messages are normal. */
  lemma RoundTripIff(t: Tree)
    ensures Strip(Branch(t)).Branch?
    ensures ParseTree(Serialize(t)) == Some(Strip(Branch(t)).tree) <==> Writable(Branch(t))
  {
    ShapesKept(t);
    hide Writable, Legible, Reread, Strip, Serialize, SerializeValue, ParseValue, ParseTree;
    ParsedTree(Serialize(t), Strip(Branch(t)));
    if Writable(Branch(t)) {
      WritableRereads(Branch(t));
      ValueRoundTrip(Branch(t));
    }
    if ParseValue(Serialize(t)) == Some(Strip(Branch(t))) {
      ParsedIsWritable(Serialize(t));
      StripKeepsWritable(Branch(t));
    }
  }

  // ---------------------------------------------------------------- what is written and read, entry by entry

  /** What is written of metadata: the locations in ascending order, if their text is not empty, then the
      description, if there is one. */
  lemma MetadataWritten(m: Metadata)
    ensures var entries, context := SerializeMetadata(m).entries, Join(Order.Sorted(m.contextLocations), ", ");
      && (context != "" ==> |entries| > 0 && entries[0] == Entry("context", JString(context)))
      && (m.description.Some? ==>
            |entries| > 0 && entries[|entries| - 1] == Entry("description", JString(m.description.value)))
      && |entries| == (if context != "" then 1 else 0) + if m.description.Some? then 1 else 0
  {
  }

  /** Entry `i` is the only description. */
  predicate OnlyDescription(entries: seq<Entry>, i: nat) {
    && i < |entries| && entries[i].key == "description"
    && forall j :: 0 <= j < |entries| && j != i ==> entries[j].key != "description"
  }

  predicate NoDescription(entries: seq<Entry>) {
    forall i :: 0 <= i < |entries| ==> entries[i].key != "description"
  }

  /** How a description may be given. */
  function DescribedBy(j: Json): Option<Metadata> {
    if j.JString? then Some(Metadata({}, Some(j.text))) else if j.JNull? then Some(Metadata({}, None)) else None
  }

  /** Of the entries of metadata only the description is read; it may be missing or null, and it may not
      be repeated. An array is read if it has the description alone. */
  lemma MetadataRead(entries: seq<Entry>, items: seq<Json>, i: nat)
    ensures NoDescription(entries) ==> ParseMetadata(JObject(entries)) == Some(Metadata({}, None))
    ensures OnlyDescription(entries, i) ==> ParseMetadata(JObject(entries)) == DescribedBy(entries[i].json)
    ensures !NoDescription(entries) && (forall k: nat :: !OnlyDescription(entries, k)) ==>
      ParseMetadata(JObject(entries)) == None
    ensures |items| == 1 ==> ParseMetadata(JArray(items)) == DescribedBy(items[0])
    ensures |items| != 1 ==> ParseMetadata(JArray(items)) == None
    ensures forall j: Json :: !j.JObject? && !j.JArray? ==> ParseMetadata(j) == None
  {
    hide OnlyDescription, NoDescription, DescriptionField;
    DescriptionRead(entries, i);
    if !NoDescription(entries) && forall k: nat :: !OnlyDescription(entries, k) {
      DescriptionRepeated(entries);
    }
  }

  lemma {:induction false} DescriptionRead(entries: seq<Entry>, i: nat)
    ensures NoDescription(entries) <==> DescriptionField(entries) == Some(Absent)
    ensures OnlyDescription(entries, i) ==> DescriptionField(entries) == FieldOf(entries[i].json)
    decreases |entries|
  {
    if entries != [] {
      var n := |entries| - 1;
      DescriptionRead(entries[..n], i);
      DescriptionsBefore(entries, i);
      hide NoDescription, OnlyDescription;
    }
  }

  lemma DescriptionsBefore(entries: seq<Entry>, i: nat)
    requires entries != []
    ensures var front, last := entries[..|entries| - 1], entries[|entries| - 1];
      && (NoDescription(entries) <==> NoDescription(front) && last.key != "description")
      && (OnlyDescription(entries, i) <==>
            if i == |front| then last.key == "description" && NoDescription(front)
            else last.key != "description" && OnlyDescription(front, i))
      && (i < |front| ==> front[i] == entries[i])
  {
    var front := entries[..|entries| - 1];
    assert forall j :: 0 <= j < |front| ==> front[j] == entries[j];
  }

  lemma {:induction false} DescriptionRepeated(entries: seq<Entry>)
    requires !NoDescription(entries) && forall k: nat :: !OnlyDescription(entries, k)
    ensures DescriptionField(entries) == None
  {
    var n := |entries| - 1;
    var front, last := entries[..n], entries[n];
    DescriptionsBefore(entries, n);
    DescriptionRead(front, 0);
    hide NoDescription, OnlyDescription, FieldOf;
    if last.key != "description" {
      forall k: nat ensures !OnlyDescription(front, k) {
        DescriptionsBefore(entries, k);
        OnlyInside(front, k);
      }
      DescriptionRepeated(front);
    }
  }

  lemma OnlyInside(entries: seq<Entry>, k: nat)
    ensures OnlyDescription(entries, k) ==> k < |entries|
  {
  }

  /** Entry `i` is the last one with its key among the first `n`. */
  predicate LastOfKey(entries: seq<Entry>, n: nat, i: nat) {
    i < n <= |entries| && forall j :: i < j < n ==> entries[j].key != entries[i].key
  }

  /** One of the first `n` entries has the key. */
  predicate HasKey(entries: seq<Entry>, n: nat, k: string) {
    n <= |entries| && exists i :: 0 <= i < n && entries[i].key == k
  }

  predicate Reads(e: Entry) {
    if "@" <= e.key then ParseMetadata(e.json).Some? else ParseValue(e.json).Some?
  }

  /** A value for each key without `@`, that of its last entry. */
  ghost predicate ValuesFrom(entries: seq<Entry>, n: nat, values: map<string, Value>) {
    && (forall k :: k in values <==> !("@" <= k) && HasKey(entries, n, k))
    && (forall i: nat :: LastOfKey(entries, n, i) && entries[i].key in values ==>
          ParseValue(entries[i].json) == Some(values[entries[i].key]))
  }

  /** Metadata for each key with `@`, that of its last entry. */
  ghost predicate MetasFrom(entries: seq<Entry>, n: nat, metas: map<string, Metadata>) {
    && (forall k :: k in metas <==> HasKey(entries, n, "@" + k))
    && (forall i: nat, k :: LastOfKey(entries, n, i) && k in metas && entries[i].key == "@" + k ==>
          ParseMetadata(entries[i].json) == Some(metas[k]))
  }

  /** What an object is read as, from its entries: it is read if each of them is, `@` entries as metadata
      and the others as values; there is a node for each key without `@`, the last entry of a key counts,
      and so does the last entry of its metadata. */
  lemma ObjectRead(entries: seq<Entry>)
    ensures ParseTree(JObject(entries)).Some? <==> forall i :: 0 <= i < |entries| ==> Reads(entries[i])
    ensures ParseTree(JObject(entries)).Some? ==>
      var inner := ParseTree(JObject(entries)).value.inner;
      && (forall k :: k in inner <==> !("@" <= k) && HasKey(entries, |entries|, k))
      && (forall i: nat :: LastOfKey(entries, |entries|, i) && entries[i].key in inner ==>
            ParseValue(entries[i].json) == Some(inner[entries[i].key].value))
      && (forall k :: k in inner ==> (inner[k].metadata.Some? <==> HasKey(entries, |entries|, "@" + k)))
      && (forall i: nat, k :: LastOfKey(entries, |entries|, i) && k in inner && entries[i].key == "@" + k ==>
            inner[k].metadata == ParseMetadata(entries[i].json))
  {
    var j := JObject(entries);
    CollectRead(j, |entries|);
    hide Collect, Reads, HasKey, LastOfKey, ParseMetadata;
    if ParseTree(j).Some? {
      var c := Collect(j, |entries|).value;
      assert ParseTree(j).value == Attach(c);
      hide ParseValue, ParseTree;
    }
  }

  lemma {:induction false} CollectRead(j: Json, n: nat)
    requires j.JObject? && n <= |j.entries|
    ensures Collect(j, n).Some? <==> forall i :: 0 <= i < n ==> Reads(j.entries[i])
    ensures Collect(j, n).Some? ==>
      ValuesFrom(j.entries, n, Collect(j, n).value.values) && MetasFrom(j.entries, n, Collect(j, n).value.metas)
  {
    hide ParseValue, ParseMetadata, ValuesFrom, MetasFrom;
    if n == 0 {
      NothingFrom(j.entries);
    } else {
      CollectRead(j, n - 1);
      MetaKey(j.entries[n - 1].key);
      if Collect(j, n).Some? {
        var c := Collect(j, n - 1).value;
        ValuesFromStep(j.entries, n, c.values);
        MetasFromStep(j.entries, n, c.metas);
      }
    }
  }

  lemma MetaKey(key: string)
    ensures IsMeta(key) <==> "@" <= key
    ensures IsMeta(key) ==> key == "@" + key[1..]
  {
  }

  lemma NothingFrom(entries: seq<Entry>)
    ensures ValuesFrom(entries, 0, map[]) && MetasFrom(entries, 0, map[])
  {
  }

  lemma HasKeyStep(entries: seq<Entry>, n: nat, k: string)
    requires 0 < n <= |entries|
    ensures HasKey(entries, n, k) <==> HasKey(entries, n - 1, k) || entries[n - 1].key == k
  {
  }

  lemma LastOfKeyStep(entries: seq<Entry>, n: nat, i: nat)
    requires 0 < n <= |entries|
    ensures LastOfKey(entries, n, i) <==>
      i == n - 1 || (LastOfKey(entries, n - 1, i) && entries[i].key != entries[n - 1].key)
    ensures LastOfKey(entries, n, i) ==> i < |entries|
  {
  }

  lemma ValuesFromStep(entries: seq<Entry>, n: nat, values: map<string, Value>)
    requires 0 < n <= |entries| && ValuesFrom(entries, n - 1, values)
    ensures "@" <= entries[n - 1].key ==> ValuesFrom(entries, n, values)
    ensures !("@" <= entries[n - 1].key) && ParseValue(entries[n - 1].json).Some? ==>
      ValuesFrom(entries, n, values[entries[n - 1].key := ParseValue(entries[n - 1].json).value])
  {
    hide ParseValue, HasKey, LastOfKey;
    forall k ensures HasKey(entries, n, k) <==> HasKey(entries, n - 1, k) || entries[n - 1].key == k {
      HasKeyStep(entries, n, k);
    }
    forall i: nat
      ensures LastOfKey(entries, n, i) ==>
        i < |entries| && (i == n - 1 || (LastOfKey(entries, n - 1, i) && entries[i].key != entries[n - 1].key))
    {
      LastOfKeyStep(entries, n, i);
    }
  }

  lemma MetasFromStep(entries: seq<Entry>, n: nat, metas: map<string, Metadata>)
    requires 0 < n <= |entries| && MetasFrom(entries, n - 1, metas)
    ensures !("@" <= entries[n - 1].key) ==> MetasFrom(entries, n, metas)
    ensures "@" <= entries[n - 1].key && ParseMetadata(entries[n - 1].json).Some? ==>
      MetasFrom(entries, n, metas[entries[n - 1].key[1..] := ParseMetadata(entries[n - 1].json).value])
  {
    hide ParseMetadata, HasKey, LastOfKey;
    var e := entries[n - 1];
    forall k ensures HasKey(entries, n, "@" + k) <==> HasKey(entries, n - 1, "@" + k) || e.key == "@" + k {
      HasKeyStep(entries, n, "@" + k);
    }
    forall i: nat
      ensures LastOfKey(entries, n, i) ==>
        i < |entries| && (i == n - 1 || (LastOfKey(entries, n - 1, i) && entries[i].key != e.key))
    {
      LastOfKeyStep(entries, n, i);
    }
    forall k ensures e.key == "@" + k <==> "@" <= e.key && e.key[1..] == k {
      if "@" <= e.key { assert e.key == "@" + e.key[1..]; }
    }
  }

  /** Where the entries of a key are written: its value after everything of the keys before it, and its
      metadata right behind. */
  lemma {:induction false} EntriesPlaced(t: Tree, keys: seq<string>, i: nat)
    requires i < |keys| && forall k :: k in keys ==> k in t.inner
    ensures var o, node := |Entries(t, keys[..i])|, t.inner[keys[i]];
      && o < |Entries(t, keys)| && Entries(t, keys)[o] == Entry(keys[i], SerializeValue(node.value))
      && |Entries(t, keys[..i + 1])| == o + 1 + (if node.metadata.Some? then 1 else 0) <= |Entries(t, keys)|
      && (node.metadata.Some? ==>
            Entries(t, keys)[o + 1] == Entry("@" + keys[i], SerializeMetadata(node.metadata.value)))
    decreases |keys|
  {
    hide SerializeMetadata;
    var front := keys[..|keys| - 1];
    if i < |keys| - 1 {
      assert front[..i] == keys[..i] && front[..i + 1] == keys[..i + 1];
      EntriesPlaced(t, front, i);
      assert Entries(t, front) <= Entries(t, keys);
    } else {
      assert keys[..i + 1] == keys;
    }
  }

  // ---------------------------------------------------------------- entry order does not matter

  ghost predicate DistinctKeys(entries: seq<Entry>) {
    forall i, j :: 0 <= i < j < |entries| ==> entries[i].key != entries[j].key
  }

  ghost function KeySet(entries: seq<Entry>): set<string> {
    set i | 0 <= i < |entries| :: entries[i].key
  }

  /** The value of a key. */
  ghost function At(entries: seq<Entry>, key: string): (j: Json)
    requires key in KeySet(entries)
    ensures exists i :: 0 <= i < |entries| && entries[i] == Entry(key, j)
  {
    var i :| 0 <= i < |entries| && entries[i].key == key;
    entries[i].json
  }

  /** The same document with the entries of its objects in another order, at any depth. */
  ghost predicate Shuffled(a: Json, b: Json)
    decreases a
  {
    if a.JObject? && b.JObject? then
      && DistinctKeys(a.entries) && DistinctKeys(b.entries) && KeySet(a.entries) == KeySet(b.entries)
      && forall k :: k in KeySet(a.entries) ==> Shuffled(At(a.entries, k), At(b.entries, k))
    else
      a == b
  }

  predicate Readable(e: Entry) {
    if IsMeta(e.key) then ParseMetadata(e.json).Some? else ParseValue(e.json).Some?
  }

  ghost function PlainKeys(entries: seq<Entry>, n: nat): set<string>
    requires n <= |entries|
  {
    set i | 0 <= i < n && !IsMeta(entries[i].key) :: entries[i].key
  }

  ghost function MetaKeys(entries: seq<Entry>, n: nat): set<string>
    requires n <= |entries|
  {
    set i | 0 <= i < n && IsMeta(entries[i].key) :: entries[i].key[1..]
  }

  /** The collected values entry by entry, when no key is repeated. */
  ghost predicate HoldsValues(entries: seq<Entry>, n: nat, values: map<string, Value>)
    requires n <= |entries|
  {
    && values.Keys == PlainKeys(entries, n)
    && forall i :: 0 <= i < n && !IsMeta(entries[i].key) ==>
         entries[i].key in values && Some(values[entries[i].key]) == ParseValue(entries[i].json)
  }

  /** The collected metadata entry by entry. */
  ghost predicate HoldsMetas(entries: seq<Entry>, n: nat, metas: map<string, Metadata>)
    requires n <= |entries|
  {
    && metas.Keys == MetaKeys(entries, n)
    && forall i :: 0 <= i < n && IsMeta(entries[i].key) ==>
         entries[i].key[1..] in metas && Some(metas[entries[i].key[1..]]) == ParseMetadata(entries[i].json)
  }

  lemma {:induction false} CollectHolds(j: Json, n: nat)
    requires j.JObject? && n <= |j.entries| && DistinctKeys(j.entries)
    ensures Collect(j, n).Some? <==> forall i :: 0 <= i < n ==> Readable(j.entries[i])
    ensures Collect(j, n).Some? ==>
      && HoldsValues(j.entries, n, Collect(j, n).value.values)
      && HoldsMetas(j.entries, n, Collect(j, n).value.metas)
  {
    hide HoldsValues, HoldsMetas, DistinctKeys, ParseValue, ParseMetadata;
    if n == 0 {
      NothingHeld(j.entries);
    } else {
      CollectHolds(j, n - 1);
      if Collect(j, n).Some? {
        var c := Collect(j, n - 1).value;
        ValuesStep(j.entries, n, c.values);
        MetasStep(j.entries, n, c.metas);
      }
    }
  }

  lemma NothingHeld(entries: seq<Entry>)
    ensures HoldsValues(entries, 0, map[]) && HoldsMetas(entries, 0, map[])
  {
  }

  lemma ValuesStep(entries: seq<Entry>, n: nat, values: map<string, Value>)
    requires 0 < n <= |entries| && DistinctKeys(entries) && HoldsValues(entries, n - 1, values)
    ensures IsMeta(entries[n - 1].key) ==> HoldsValues(entries, n, values)
    ensures !IsMeta(entries[n - 1].key) && ParseValue(entries[n - 1].json).Some? ==>
      HoldsValues(entries, n, values[entries[n - 1].key := ParseValue(entries[n - 1].json).value])
  {
    hide ParseValue, IsMeta;
    var e := entries[n - 1];
    assert PlainKeys(entries, n) == PlainKeys(entries, n - 1) + if IsMeta(e.key) then {} else {e.key};
  }

  lemma MetasStep(entries: seq<Entry>, n: nat, metas: map<string, Metadata>)
    requires 0 < n <= |entries| && DistinctKeys(entries) && HoldsMetas(entries, n - 1, metas)
    ensures !IsMeta(entries[n - 1].key) ==> HoldsMetas(entries, n, metas)
    ensures IsMeta(entries[n - 1].key) && ParseMetadata(entries[n - 1].json).Some? ==>
      HoldsMetas(entries, n, metas[entries[n - 1].key[1..] := ParseMetadata(entries[n - 1].json).value])
  {
    hide ParseMetadata, HoldsMetas, DistinctKeys;
    var e := entries[n - 1];
    if IsMeta(e.key) {
      if ParseMetadata(e.json).Some? {
        MetaAdded(entries, n, metas, ParseMetadata(e.json).value);
      }
    } else {
      MetaSkipped(entries, n, metas);
    }
  }

  lemma MetaSkipped(entries: seq<Entry>, n: nat, metas: map<string, Metadata>)
    requires 0 < n <= |entries| && HoldsMetas(entries, n - 1, metas) && !IsMeta(entries[n - 1].key)
    ensures HoldsMetas(entries, n, metas)
  {
    hide ParseMetadata, IsMeta;
    assert MetaKeys(entries, n) == MetaKeys(entries, n - 1);
  }

  lemma MetaKeysGrow(entries: seq<Entry>, n: nat)
    requires 0 < n <= |entries| && IsMeta(entries[n - 1].key)
    ensures MetaKeys(entries, n) == MetaKeys(entries, n - 1) + {entries[n - 1].key[1..]}
  {
    hide IsMeta;
  }

  lemma MetaAdded(entries: seq<Entry>, n: nat, metas: map<string, Metadata>, m: Metadata)
    requires 0 < n <= |entries| && DistinctKeys(entries) && HoldsMetas(entries, n - 1, metas)
    requires IsMeta(entries[n - 1].key) && ParseMetadata(entries[n - 1].json) == Some(m)
    ensures HoldsMetas(entries, n, metas[entries[n - 1].key[1..] := m])
  {
    hide ParseMetadata, MetaKeys;
    var e := entries[n - 1];
    assert MetaKeys(entries, n) == MetaKeys(entries, n - 1) + {e.key[1..]} by { MetaKeysGrow(entries, n); }
    forall i | 0 <= i < n - 1 && IsMeta(entries[i].key) ensures entries[i].key[1..] != e.key[1..] {
      assert entries[i].key == "@" + entries[i].key[1..] && e.key == "@" + e.key[1..];
    }
  }

  lemma {:induction false} DescriptionOfDistinct(entries: seq<Entry>)
    requires DistinctKeys(entries)
    ensures DescriptionField(entries)
         == if "description" in KeySet(entries) then FieldOf(At(entries, "description")) else Some(Absent)
  {
    if entries != [] {
      var front, last := entries[..|entries| - 1], entries[|entries| - 1];
      DescriptionOfDistinct(front);
      assert forall i :: 0 <= i < |front| ==> front[i] == entries[i];
      assert KeySet(entries) == KeySet(front) + {last.key};
    }
  }

  lemma MetadataOrder(a: Json, b: Json)
    requires Shuffled(a, b)
    ensures ParseMetadata(a) == ParseMetadata(b)
  {
    if a.JObject? && b.JObject? {
      DescriptionOfDistinct(a.entries);
      DescriptionOfDistinct(b.entries);
    }
  }

  /** The collected maps of a whole object, key by key. */
  ghost predicate Complete(entries: seq<Entry>, c: Collected) {
    && (forall k :: k in c.values <==> !IsMeta(k) && k in KeySet(entries))
    && (forall k :: k in c.metas <==> "@" + k in KeySet(entries))
    && (forall k :: k in KeySet(entries) && !IsMeta(k) ==> Some(c.values[k]) == ParseValue(At(entries, k)))
    && (forall k :: "@" + k in KeySet(entries) ==> Some(c.metas[k]) == ParseMetadata(At(entries, "@" + k)))
  }

  lemma HoldsIsComplete(entries: seq<Entry>, c: Collected)
    requires DistinctKeys(entries)
    requires HoldsValues(entries, |entries|, c.values) && HoldsMetas(entries, |entries|, c.metas)
    ensures Complete(entries, c)
  {
    hide ParseValue, ParseMetadata, HoldsValues, HoldsMetas;
    forall k ensures k in c.values <==> !IsMeta(k) && k in KeySet(entries)
      ensures k in KeySet(entries) && !IsMeta(k) ==> Some(c.values[k]) == ParseValue(At(entries, k))
    {
      ValueOfKey(entries, c.values, k);
    }
    forall k ensures k in c.metas <==> "@" + k in KeySet(entries)
      ensures "@" + k in KeySet(entries) ==> Some(c.metas[k]) == ParseMetadata(At(entries, "@" + k))
    {
      MetadataOfKey(entries, c.metas, k);
    }
  }

  lemma ValueOfKey(entries: seq<Entry>, values: map<string, Value>, k: string)
    requires HoldsValues(entries, |entries|, values)
    ensures k in values <==> !IsMeta(k) && k in KeySet(entries)
    ensures k in KeySet(entries) && !IsMeta(k) ==> Some(values[k]) == ParseValue(At(entries, k))
  {
    hide ParseValue;
    if k in KeySet(entries) && !IsMeta(k) {
      var i :| 0 <= i < |entries| && entries[i] == Entry(k, At(entries, k));
      assert entries[i].key in values;
    }
  }

  lemma MetadataOfKey(entries: seq<Entry>, metas: map<string, Metadata>, k: string)
    requires HoldsMetas(entries, |entries|, metas)
    ensures k in metas <==> "@" + k in KeySet(entries)
    ensures "@" + k in KeySet(entries) ==> Some(metas[k]) == ParseMetadata(At(entries, "@" + k))
  {
    hide ParseMetadata;
    if "@" + k in KeySet(entries) {
      var i :| 0 <= i < |entries| && entries[i] == Entry("@" + k, At(entries, "@" + k));
      assert IsMeta(entries[i].key) && entries[i].key[1..] == k;
    }
    if k in metas {
      var i :| 0 <= i < |entries| && IsMeta(entries[i].key) && entries[i].key[1..] == k;
      assert entries[i].key == "@" + k;
    }
  }

  predicate ReadableAt(k: string, j: Json) { Readable(Entry(k, j)) }

  /** An object reads if and only if each of its keys does. */
  lemma ObjectReads(j: Json)
    requires j.JObject? && DistinctKeys(j.entries)
    ensures ParseValue(j).Some? <==> forall k :: k in KeySet(j.entries) ==> ReadableAt(k, At(j.entries, k))
    ensures ParseValue(j).Some? ==>
      exists c :: Complete(j.entries, c) && ParseValue(j) == Some(Branch(Attach(c)))
  {
    var entries := j.entries;
    CollectHolds(j, |entries|);
    if ParseValue(j).Some? {
      var c := Collect(j, |entries|).value;
      HoldsIsComplete(entries, c);
      forall k | k in KeySet(entries) ensures ReadableAt(k, At(entries, k)) {
        var i :| 0 <= i < |entries| && entries[i] == Entry(k, At(entries, k));
      }
    }
    if forall k :: k in KeySet(entries) ==> ReadableAt(k, At(entries, k)) {
      forall i | 0 <= i < |entries| ensures Readable(entries[i]) {
        assert entries[i].key in KeySet(entries);
        assert ReadableAt(entries[i].key, At(entries, entries[i].key));
        var i' :| 0 <= i' < |entries| && entries[i'] == Entry(entries[i].key, At(entries, entries[i].key));
        assert i' == i;
      }
    }
  }

  lemma CompleteIsUnique(a: seq<Entry>, b: seq<Entry>, c: Collected, d: Collected)
    requires KeySet(a) == KeySet(b)
    requires forall k :: k in KeySet(a) ==> ParseValue(At(a, k)) == ParseValue(At(b, k))
    requires forall k :: k in KeySet(a) ==> ParseMetadata(At(a, k)) == ParseMetadata(At(b, k))
    requires Complete(a, c) && Complete(b, d)
    ensures c == d
  {
    hide ParseValue, ParseMetadata;
    assert c.values == d.values;
    forall k | k in c.metas ensures k in d.metas && c.metas[k] == d.metas[k] {
      assert "@" + k in KeySet(a);
    }
    forall k | k in d.metas ensures k in c.metas {
      assert "@" + k in KeySet(b);
    }
    assert c.metas == d.metas;
  }

  /** Reading a file does not depend on the order of its entries, at any depth. */
  lemma {:induction false} EntryOrderIrrelevant(a: Json, b: Json)
    requires Shuffled(a, b)
    ensures ParseValue(a) == ParseValue(b)
    decreases a
  {
    if a.JObject? && b.JObject? {
      forall k | k in KeySet(a.entries)
        ensures ParseValue(At(a.entries, k)) == ParseValue(At(b.entries, k))
        ensures ParseMetadata(At(a.entries, k)) == ParseMetadata(At(b.entries, k))
        ensures ReadableAt(k, At(a.entries, k)) == ReadableAt(k, At(b.entries, k))
      {
        EntryOrderIrrelevant(At(a.entries, k), At(b.entries, k));
        MetadataOrder(At(a.entries, k), At(b.entries, k));
      }
      ObjectReads(a);
      ObjectReads(b);
      if ParseValue(a).Some? {
        var c :| Complete(a.entries, c) && ParseValue(a) == Some(Branch(Attach(c)));
        var d :| Complete(b.entries, d) && ParseValue(b) == Some(Branch(Attach(d)));
        CompleteIsUnique(a.entries, b.entries, c, d);
      }
    }
  }

  // ---------------------------------------------------------------- orphaned metadata

  predicate HasPlainKey(entries: seq<Entry>, k: string) {
    exists i :: 0 <= i < |entries| && entries[i].key == k && !IsMeta(k)
  }

  /** The first `n` entries of `j` without the `@` entries that have no partner, at any depth. */
  function WithoutOrphans(j: Json, n: nat): seq<Entry>
    requires j.JObject? && n <= |j.entries|
    decreases j, n
  {
    if n == 0 then []
    else
      var e := j.entries[n - 1];
      WithoutOrphans(j, n - 1) +
      if !IsMeta(e.key) then [Entry(e.key, DropOrphans(e.json))]
      else if HasPlainKey(j.entries, e.key[1..]) then [e] else []
  }

  function DropOrphans(j: Json): Json
    decreases j, if j.JObject? then |j.entries| + 1 else 0
  {
    if j.JObject? then JObject(WithoutOrphans(j, |j.entries|)) else j
  }

  lemma {:induction false} WithoutOrphansPrefix(j: Json, n: nat)
    requires j.JObject? && n <= |j.entries|
    ensures WithoutOrphans(j, n) <= DropOrphans(j).entries
    decreases |j.entries| - n
  {
    if n < |j.entries| {
      WithoutOrphansPrefix(j, n + 1);
    }
  }

  function Partnered(metas: map<string, Metadata>, entries: seq<Entry>): map<string, Metadata> {
    map k | k in metas && HasPlainKey(entries, k) :: metas[k]
  }

  lemma PartneredPut(metas: map<string, Metadata>, entries: seq<Entry>, k: string, m: Metadata)
    ensures Partnered(metas[k := m], entries)
         == if HasPlainKey(entries, k) then Partnered(metas, entries)[k := m] else Partnered(metas, entries)
  {
  }

  /** The two maps after the kept ones of the first `n` entries: no value is lost, and of the metadata
      what has a partner is there. */
  ghost predicate KeptAlike(j: Json, n: nat)
    requires j.JObject? && n <= |j.entries|
  {
    && |WithoutOrphans(j, n)| <= |DropOrphans(j).entries| && Collect(j, n).Some?
    && (forall k :: k in Collect(j, n).value.values ==> HasPlainKey(j.entries, k))
    && Collect(DropOrphans(j), |WithoutOrphans(j, n)|)
    == Some(Collect(j, n).value.(metas := Partnered(Collect(j, n).value.metas, j.entries)))
  }

  lemma {:induction false} CollectWithoutOrphans(j: Json, n: nat)
    requires j.JObject? && n <= |j.entries| && Collect(j, n).Some?
    ensures KeptAlike(j, n)
    decreases j, n
  {
    WithoutOrphansPrefix(j, n);
    if n == 0 {
      assert Partnered(map[], j.entries) == map[];
    } else {
      hide KeptAlike, Attach, DropOrphans, WithoutOrphans;
      CollectWithoutOrphans(j, n - 1);
      if !IsMeta(j.entries[n - 1].key) {
        OrphansDropped(j.entries[n - 1].json);
        ValueKeptAlike(j, n);
      } else {
        MetaKeptAlike(j, n);
      }
    }
  }

  lemma ValueKeptAlike(j: Json, n: nat)
    requires j.JObject? && 0 < n <= |j.entries| && KeptAlike(j, n - 1) && Collect(j, n).Some?
    requires WithoutOrphans(j, n) <= DropOrphans(j).entries
    requires !IsMeta(j.entries[n - 1].key)
    requires ParseValue(DropOrphans(j.entries[n - 1].json)) == ParseValue(j.entries[n - 1].json)
    ensures KeptAlike(j, n)
  {
    hide ParseValue, ParseMetadata, Partnered;
    var e, kept := j.entries[n - 1], WithoutOrphans(j, n);
    assert HasPlainKey(j.entries, e.key);
    assert kept[|kept| - 1] == Entry(e.key, DropOrphans(e.json));
    assert DropOrphans(j).entries[|kept| - 1] == kept[|kept| - 1];
  }

  lemma MetaKeptAlike(j: Json, n: nat)
    requires j.JObject? && 0 < n <= |j.entries| && KeptAlike(j, n - 1) && Collect(j, n).Some?
    requires WithoutOrphans(j, n) <= DropOrphans(j).entries
    requires IsMeta(j.entries[n - 1].key)
    ensures KeptAlike(j, n)
  {
    hide ParseValue, ParseMetadata, Partnered, HasPlainKey;
    var e, kept := j.entries[n - 1], WithoutOrphans(j, n);
    PartneredPut(Collect(j, n - 1).value.metas, j.entries, e.key[1..], ParseMetadata(e.json).value);
    if HasPlainKey(j.entries, e.key[1..]) {
      assert kept[|kept| - 1] == e;
      assert DropOrphans(j).entries[|kept| - 1] == kept[|kept| - 1];
    }
  }

  /** A file that reads at all reads the same without its orphaned `@` entries, at any depth. */
  lemma {:induction false} OrphansDropped(j: Json)
    requires ParseValue(j).Some?
    ensures ParseValue(DropOrphans(j)) == ParseValue(j)
    decreases j, if j.JObject? then |j.entries| + 1 else 0
  {
    if j.JObject? {
      CollectWithoutOrphans(j, |j.entries|);
      var c := Collect(j, |j.entries|).value;
      assert Attach(c) == Attach(c.(metas := Partnered(c.metas, j.entries)));
    }
  }

  // ---------------------------------------------------------------- the visitor

  lemma {:induction false} FailureIsFinal(j: Json, i: nat)
    requires j.JObject? && i <= |j.entries| && Collect(j, i).None?
    ensures Collect(j, |j.entries|).None?
    decreases |j.entries| - i
  {
    if i < |j.entries| {
      FailureIsFinal(j, i + 1);
    }
  }

  /** The visitor's tree: the values read so far, with the metadata attached so far. */
  ghost predicate Bears(tree: map<string, Node>, values: map<string, Value>, metas: map<string, Metadata>) {
    && tree.Keys == values.Keys
    && forall k :: k in values ==> tree[k] == Node(if k in metas then Some(metas[k]) else None, values[k])
  }

  /** `visit_map` and the untagged `Value` around it. */
  method Deserialize(j: Json) returns (r: Option<Value>)
    ensures r == ParseValue(j)
    decreases j
  {
    if j.JString? {
      return ParseLeaf(j.text);
    }
    if !j.JObject? {
      return None;
    }
    var tree: map<string, Node> := map[];
    var metadataMap: map<string, Metadata> := map[];
    ghost var values: map<string, Value> := map[];
    for i := 0 to |j.entries|
      invariant Collect(j, i) == Some(Collected(values, metadataMap))
      invariant Bears(tree, values, map[])
    {
      var e := j.entries[i];
      if IsMeta(e.key) {
        var metadata := ParseMetadata(e.json);
        if metadata.None? {
          FailureIsFinal(j, i + 1);
          return None;
        }
        metadataMap := metadataMap[e.key[1..] := metadata.value];
      } else {
        var value := Deserialize(e.json);
        if value.None? {
          FailureIsFinal(j, i + 1);
          return None;
        }
        tree := tree[e.key := Node(None, value.value)];
        values := values[e.key := value.value];
      }
    }
    tree := AttachAll(tree, metadataMap, values);
    return Some(Branch(Tree(tree)));
  }

  /** The final loop of the visitor, over the metadata map. */
  method AttachAll(bare: map<string, Node>, metadataMap: map<string, Metadata>, ghost values: map<string, Value>)
    returns (tree: map<string, Node>)
    requires Bears(bare, values, map[])
    ensures Tree(tree) == Attach(Collected(values, metadataMap))
  {
    tree := bare;
    ghost var attached: map<string, Metadata> := map[];
    var rest := metadataMap.Keys;
    while rest != {}
      invariant rest <= metadataMap.Keys
      invariant Bears(tree, values, attached)
      invariant attached == metadataMap - rest
      decreases rest
    {
      var k :| k in rest;
      rest := rest - {k};
      attached := attached[k := metadataMap[k]];
      if k in tree {
        tree := tree[k := tree[k].(metadata := Some(metadataMap[k]))];
      }
    }
  }
}
