/** The translation objects themselves: records on the heap, written in place through a moving cursor. */
module LocaleObjects {
  import opened LocaleTree

  datatype Slot = Text(text: string) | Sub(node: Node)

  class Node {
    var fields: map<string, Slot>

    constructor ()
      ensures fields == map[]
    {
      fields := map[];
    }
  }

  function Parent(p: Path): Path
    requires p != []
  {
    p[..|p| - 1]
  }

  function Last(p: Path): string
    requires p != []
  {
    p[|p| - 1]
  }

  // A tree as three maps: the node at each path, its fields, and the text at each path.

  ghost predicate FieldOk(at: map<Path, Node>, fields: map<Path, map<string, Slot>>, texts: map<Path, string>, p: Path, k: string) {
    p in fields && k in fields[p] ==>
      match fields[p][k]
      case Text(text) => p + [k] in texts && texts[p + [k]] == text && p + [k] !in at
      case Sub(node) => p + [k] in at && at[p + [k]] == node && p + [k] !in texts
  }

  ghost predicate HeldBy(fields: map<Path, map<string, Slot>>, p: Path, slot: Slot) {
    p != [] && Parent(p) in fields && Last(p) in fields[Parent(p)] && fields[Parent(p)][Last(p)] == slot
  }

  ghost predicate ObjectOk(at: map<Path, Node>, fields: map<Path, map<string, Slot>>, p: Path) {
    p in at ==> p == [] || HeldBy(fields, p, Sub(at[p]))
  }

  ghost predicate TextOk(fields: map<Path, map<string, Slot>>, texts: map<Path, string>, p: Path) {
    p in texts ==> HeldBy(fields, p, Text(texts[p]))
  }

  ghost predicate SameNode(at: map<Path, Node>, p: Path, q: Path) {
    p in at && q in at && at[p] == at[q]
  }

  ghost predicate TreeOk(at: map<Path, Node>, fields: map<Path, map<string, Slot>>, texts: map<Path, string>) {
    && [] in at && fields.Keys == at.Keys
    && (forall p, q :: SameNode(at, p, q) ==> p == q)
    && (forall p, k :: FieldOk(at, fields, texts, p, k))
    && (forall p :: ObjectOk(at, fields, p))
    && (forall p :: TextOk(fields, texts, p))
  }

  /** A new, empty object under a key that held a text or nothing. */
  lemma NewObjectKeepsOk(at: map<Path, Node>, fields: map<Path, map<string, Slot>>, texts: map<Path, string>,
                         here: Path, key: string, next: Node)
    requires TreeOk(at, fields, texts) && here in at && next !in at.Values
    requires key in fields[here] ==> fields[here][key].Text?
    ensures here + [key] !in at
    ensures TreeOk(at[here + [key] := next],
                   fields[here := fields[here][key := Sub(next)]][here + [key] := map[]],
                   map q | q in texts && q != here + [key] :: texts[q])
  {
    var there := here + [key];
    var at' := at[there := next];
    var fields' := fields[here := fields[here][key := Sub(next)]][there := map[]];
    var texts' := map q | q in texts && q != there :: texts[q];
    assert Parent(there) == here && Last(there) == key;
    assert there !in at by {
      assert ObjectOk(at, fields, there);
    }
    forall p, q | SameNode(at', p, q) ensures p == q {
      assert p in at && q in at ==> SameNode(at, p, q);
    }
    forall p, k ensures FieldOk(at', fields', texts', p, k) {
      SamePath(p, k, here, key);
      assert FieldOk(at, fields, texts, p, k);
    }
    forall p ensures ObjectOk(at', fields', p) {
      assert ObjectOk(at, fields, p);
      if p in at && p != [] {
        HeldElsewhere(fields, fields', there, p, Sub(at[p]));
      }
    }
    forall p ensures TextOk(fields', texts', p) {
      assert TextOk(fields, texts, p);
      if p in texts' {
        HeldElsewhere(fields, fields', there, p, Text(texts[p]));
      }
    }
  }

  lemma HeldElsewhere(fields: map<Path, map<string, Slot>>, fields': map<Path, map<string, Slot>>, there: Path, p: Path, slot: Slot)
    requires there != [] && p != there && HeldBy(fields, p, slot)
    requires Parent(p) in fields' && (Parent(p) != Parent(there) ==> fields'[Parent(p)] == fields[Parent(p)])
    requires forall k :: Parent(p) == Parent(there) && k in fields[Parent(p)] && k != Last(there) ==>
        k in fields'[Parent(p)] && fields'[Parent(p)][k] == fields[Parent(p)][k]
    ensures HeldBy(fields', p, slot)
  {
    assert p == Parent(p) + [Last(p)] && there == Parent(there) + [Last(there)];
  }

  /** A text under a key, in place of whatever was there. */
  lemma PutTextKeepsOk(at: map<Path, Node>, fields: map<Path, map<string, Slot>>, texts: map<Path, string>,
                       here: Path, key: string, value: string)
    requires TreeOk(at, fields, texts) && here in at
    ensures TreeOk(map p | p in at && !(here + [key] <= p) :: at[p],
                   map p | p in at && !(here + [key] <= p) :: if p == here then fields[here][key := Text(value)] else fields[p],
                   (map q | q in texts && !(here + [key] <= q) :: texts[q])[here + [key] := value])
  {
    var there := here + [key];
    var at' := map p | p in at && !(there <= p) :: at[p];
    var fields' := map p | p in at && !(there <= p) :: if p == here then fields[here][key := Text(value)] else fields[p];
    var texts' := (map q | q in texts && !(there <= q) :: texts[q])[there := value];
    assert Parent(there) == here && Last(there) == key;
    forall p, q | SameNode(at', p, q) ensures p == q {
      assert SameNode(at, p, q);
    }
    forall p, k ensures FieldOk(at', fields', texts', p, k) {
      SamePath(p, k, here, key);
      Below(there, p, k);
      assert FieldOk(at, fields, texts, p, k);
    }
    forall p ensures ObjectOk(at', fields', p) {
      assert ObjectOk(at, fields, p);
      if p in at' && p != [] {
        ParentKept(there, p);
        HeldElsewhere(fields, fields', there, p, Sub(at[p]));
      }
    }
    forall p ensures TextOk(fields', texts', p) {
      assert TextOk(fields, texts, p);
      if p in texts' && p != there {
        ParentKept(there, p);
        HeldElsewhere(fields, fields', there, p, Text(texts[p]));
      }
    }
  }

  lemma ParentKept(there: Path, p: Path)
    requires there != [] && p != [] && !(there <= p)
    ensures !(there <= Parent(p))
  {
    assert p == Parent(p) + [Last(p)];
    Below(there, Parent(p), Last(p));
  }

  lemma OneNode(at: map<Path, Node>, fields: map<Path, map<string, Slot>>, texts: map<Path, string>, here: Path)
    requires TreeOk(at, fields, texts) && here in at
    ensures forall p :: p in at && at[p] == at[here] ==> p == here
  {
    assert forall p :: p in at && at[p] == at[here] ==> SameNode(at, p, here);
  }

  lemma FieldsAfter(was: map<Path, map<string, Slot>>, now: map<Path, map<string, Slot>>, here: Path,
                    written: map<string, Slot>, there: Path)
    requires now.Keys == was.Keys + {there} && here in was && there !in was
    requires now[there] == map[] && now[here] == written
    requires forall p :: p in was && p != here ==> now[p] == was[p]
    ensures now == was[here := written][there := map[]]
  {
  }

  /** A tree of nodes hanging off a root. */
  class TranslationTree {
    const root: Node
    ghost var at: map<Path, Node>
    ghost var texts: map<Path, string>

    ghost function Fields(): map<Path, map<string, Slot>>
      reads this, at.Values
    {
      map p | p in at :: at[p].fields
    }

    ghost predicate Valid()
      reads this, at.Values
    {
      TreeOk(at, Fields(), texts) && [] in at && at[[]] == root
    }

    constructor ()
      ensures Valid() && texts == map[] && at.Keys == {[]} && fresh(root)
    {
      root := new Node();
      new;
      at := map[[] := root];
      texts := map[];
    }

    /** Every object but the root has a text somewhere below it. */
    ghost predicate NoEmptyObjects()
      reads this
    {
      forall p :: p in at && p != [] ==> Occupied(texts, p)
    }

    /** A new, empty object under a key that held a text or nothing. */
    method AddObject(cursor: Node, key: string, ghost here: Path) returns (next: Node)
      requires Valid() && here in at && at[here] == cursor
      requires key in cursor.fields ==> cursor.fields[key].Text?
      modifies this, cursor
      ensures Valid() && fresh(next)
      ensures at == old(at)[here + [key] := next]
      ensures texts == map q | q in old(texts) && q != here + [key] :: old(texts)[q]
    {
      hide TreeOk;
      ghost var was, there := Fields(), here + [key];
      OneNode(at, was, texts, here);
      next := new Node();
      NewObjectKeepsOk(at, was, texts, here, key, next);
      cursor.fields := cursor.fields[key := Sub(next)];
      at := at[there := next];
      texts := map q | q in texts && q != there :: texts[q];
      assert here != there && Fields()[there] == map[];
      FieldsAfter(was, Fields(), here, was[here][key := Sub(next)], there);
    }

    /** One turn of the cursor: into the object under the key, or into a new one put in place of a text. */
    method EnterObject(cursor: Node, key: string, ghost here: Path) returns (next: Node)
      requires Valid() && here in at && at[here] == cursor
      modifies this, cursor
      ensures Valid() && here + [key] in at && at[here + [key]] == next
      ensures texts == map q | q in old(texts) && q != here + [key] :: old(texts)[q]
      ensures fresh(at.Values - old(at.Values)) && at.Keys == old(at.Keys) + {here + [key]}
    {
      hide TreeOk;
      if key !in cursor.fields || cursor.fields[key].Text? {
        next := AddObject(cursor, key, here);
      } else {
        ChildObject(at, Fields(), texts, here, key);
        next := cursor.fields[key].node;
        assert texts == map q | q in old(texts) && q != here + [key] :: old(texts)[q];
      }
    }

    /** The last step: the text goes under the last part, and what hung there is cut off. */
    method PutText(cursor: Node, key: string, value: string, ghost here: Path)
      requires Valid() && here in at && at[here] == cursor
      modifies this, cursor
      ensures Valid() && at.Values <= old(at.Values)
      ensures forall p :: p in at ==> p in old(at) && !(here + [key] <= p)
      ensures texts == (map q | q in old(texts) && !(here + [key] <= q) :: old(texts)[q])[here + [key] := value]
    {
      PutTextKeepsOk(at, Fields(), texts, here, key, value);
      hide TreeOk;
      OneNode(at, Fields(), texts, here);
      ghost var was := Fields();
      cursor.fields := cursor.fields[key := Text(value)];
      ghost var fields := map p | p in at && !(here + [key] <= p) ::
        if p == here then was[here][key := Text(value)] else was[p];
      at := map p | p in at && !(here + [key] <= p) :: at[p];
      texts := (map q | q in texts && !(here + [key] <= q) :: texts[q])[here + [key] := value];
      assert Fields() == fields;
    }

    method SetNestedValue(dottedKey: string, value: string)
      requires Valid()
      modifies this, at.Values
      ensures Valid() && fresh(at.Values - old(at.Values))
      ensures texts == SetText(old(texts), Split(dottedKey), value)
      ensures old(NoEmptyObjects()) ==> NoEmptyObjects()
    {
      var parts := Split(dottedKey);
      hide TreeOk, SetText, Passed, Occupied;
      ghost var texts0, tidy := texts, NoEmptyObjects();
      var cursor := root;
      PassNone(at, Fields(), texts);
      assert parts[..0] == [];
      for index := 0 to |parts| - 1
        invariant Valid() && fresh(at.Values - old(at.Values))
        invariant parts[..index] in at && at[parts[..index]] == cursor
        invariant texts == Passed(texts0, parts[..index])
        invariant tidy ==> Tidied(at.Keys, texts0, parts)
      {
        assert cursor in at.Values;
        assert parts[..index + 1] == parts[..index] + [parts[index]];
        PassFurther(texts0, parts[..index], parts[index]);
        cursor := EnterObject(cursor, parts[index], parts[..index]);
      }
      assert cursor in at.Values;
      assert parts == parts[..|parts| - 1] + [parts[|parts| - 1]];
      PutText(cursor, parts[|parts| - 1], value, parts[..|parts| - 1]);
      PassedAll(texts0, parts, value);
      if tidy {
        forall p | p in at && p != [] ensures Occupied(texts, p) {
          StaysOccupied(texts0, p, parts, value);
        }
      }
    }
  }

  ghost predicate Tidied(objects: set<Path>, texts: map<Path, string>, parts: Path) {
    forall p :: p in objects && p != [] ==> Occupied(texts, p) || p <= parts
  }

  ghost predicate Occupied(texts: map<Path, string>, p: Path) {
    exists q :: q in texts && p <= q
  }

  lemma ComparableAbove(p: Path, q: Path, parts: Path)
    requires p <= q && Comparable(q, parts)
    ensures Comparable(p, parts)
  {
    if parts <= q {
      assert |p| <= |parts| ==> p == q[..|p|] == parts[..|p|];
      assert |parts| <= |p| ==> parts == q[..|parts|] == p[..|parts|];
    } else {
      assert p == q[..|p|] == parts[..|p|];
    }
  }

  lemma StaysOccupied(texts: map<Path, string>, p: Path, parts: Path, value: string)
    requires (Occupied(texts, p) || p <= parts) && !(parts <= p)
    ensures Occupied(SetText(texts, parts, value), p)
  {
    if p <= parts {
      assert parts in SetText(texts, parts, value);
    } else {
      var q :| q in texts && p <= q;
      assert !Comparable(q, parts) by {
        if Comparable(q, parts) {
          ComparableAbove(p, q, parts);
        }
      }
      assert q in SetText(texts, parts, value);
    }
  }

  /** The map a flattening writes into. */
  class FlatMap {
    var entries: map<string, string>

    constructor ()
      ensures entries == map[]
    {
      entries := map[];
    }
  }

  /** The nodes on the way to a text are objects of the tree, each holding the next. */
  lemma {:induction false} WayToText(at: map<Path, Node>, fields: map<Path, map<string, Slot>>, texts: map<Path, string>, q: Path, n: nat)
    requires TreeOk(at, fields, texts) && q in texts && n < |q|
    ensures q[..n] in at && q[n] in fields[q[..n]]
    decreases |q| - n
  {
    if n + 1 == |q| {
      assert TextOk(fields, texts, q);
    } else {
      WayToText(at, fields, texts, q, n + 1);
      assert ObjectOk(at, fields, q[..n + 1]);
      assert Parent(q[..n + 1]) == q[..n];
    }
  }

  /** What was in the map stays listed or is overwritten, and what came in is listed under its full key. */
  ghost predicate Collected(texts: map<Path, string>, before: map<string, string>, after: map<string, string>) {
    && before.Keys <= after.Keys
    && forall k :: k in after ==> (k in before && after[k] == before[k]) || exists q :: ListedAs(texts, q, k, after[k])
  }

  lemma CollectedMore(texts: map<Path, string>, a: map<string, string>, b: map<string, string>, c: map<string, string>)
    requires Collected(texts, a, b) && Collected(texts, b, c)
    ensures Collected(texts, a, c)
  {
  }

  lemma CollectedOne(texts: map<Path, string>, a: map<string, string>, q: Path, key: string, value: string)
    requires ListedAs(texts, q, key, value)
    ensures Collected(texts, a, a[key := value])
  {
  }

  /** All texts below `here` are in the map, but perhaps for those under the given fields. */
  ghost predicate Reached(texts: map<Path, string>, here: Path, but: set<string>, entries: map<string, string>) {
    forall q :: q in texts && here < q && q[|here|] !in but ==> Dotted(q) in entries
  }

  lemma NothingReachedYet(at: map<Path, Node>, fields: map<Path, map<string, Slot>>, texts: map<Path, string>, here: Path, entries: map<string, string>)
    requires TreeOk(at, fields, texts) && here in at
    ensures Reached(texts, here, fields[here].Keys, entries)
  {
    forall q | q in texts && here < q ensures q[|here|] in fields[here] {
      assert q[..|here|] == here;
      WayToText(at, fields, texts, q, |here|);
    }
  }

  lemma AllReached(at: map<Path, Node>, fields: map<Path, map<string, Slot>>, texts: map<Path, string>, here: Path, entries: map<string, string>)
    requires TreeOk(at, fields, texts) && here in at && Reached(texts, here, {}, entries)
    ensures forall q :: q in texts && here <= q ==> Dotted(q) in entries
  {
    forall q | q in texts && here <= q ensures here < q {
      KindsApart(at, fields, texts, q);
      assert |q| == |here| ==> q == here;
    }
  }

  /** One more field is done: the texts under it are in the map, and nothing was lost. */
  lemma FieldReached(texts: map<Path, string>, here: Path, key: string, but: set<string>,
                     before: map<string, string>, after: map<string, string>)
    requires Reached(texts, here, but, before) && before.Keys <= after.Keys
    requires forall q :: q in texts && here + [key] <= q ==> Dotted(q) in after
    ensures Reached(texts, here, but - {key}, after)
  {
    forall q | q in texts && here < q && q[|here|] == key ensures here + [key] <= q {
      assert q[..|here| + 1] == here + [key];
    }
  }

  lemma TextReached(at: map<Path, Node>, fields: map<Path, map<string, Slot>>, texts: map<Path, string>,
                    here: Path, key: string, entries: map<string, string>)
    requires TreeOk(at, fields, texts) && here in at && key in fields[here] && fields[here][key].Text?
    requires Dotted(here + [key]) in entries
    ensures ListedAs(texts, here + [key], Dotted(here + [key]), fields[here][key].text)
    ensures forall q :: q in texts && here + [key] <= q ==> Dotted(q) in entries
  {
    assert FieldOk(at, fields, texts, here, key);
    forall q | q in texts && here + [key] <= q ensures q == here + [key] {
      OnlyText(at, fields, texts, here + [key], q);
    }
  }

  lemma ChildObject(at: map<Path, Node>, fields: map<Path, map<string, Slot>>, texts: map<Path, string>, here: Path, key: string)
    requires TreeOk(at, fields, texts) && here in at && key in fields[here] && fields[here][key].Sub?
    ensures here + [key] in at && at[here + [key]] == fields[here][key].node && here + [key] !in texts
  {
    assert FieldOk(at, fields, texts, here, key);
  }

  /** Object.entries lists the fields in an order of its own; any order will do. */
  method FlattenTranslations(value: Node, prefix: string, out: FlatMap, ghost tree: TranslationTree, ghost here: Path)
    requires tree.Valid() && here in tree.at && tree.at[here] == value && prefix == Dotted(here)
    modifies out
    ensures forall q :: q in tree.texts && here <= q ==> Dotted(q) in out.entries
    ensures Collected(tree.texts, old(out.entries), out.entries)
    decreases Under(tree.at, here)
  {
    hide TreeOk, Collected, Reached, Under;
    ghost var at, fields, texts := tree.at, tree.Fields(), tree.texts;
    NothingReachedYet(at, fields, texts, here, out.entries);
    NothingCollected(texts, out.entries);
    var keys := value.fields.Keys;
    while keys != {}
      invariant keys <= value.fields.Keys
      invariant Reached(texts, here, keys, out.entries)
      invariant Collected(texts, old(out.entries), out.entries)
      decreases keys
    {
      var key :| key in keys;
      var fullKey := FullKey(prefix, key);
      assert fullKey == Dotted(here + [key]) by {
        assert (here + [key])[..|here|] == here;
      }
      ghost var before := out.entries;
      match value.fields[key] {
        case Text(text) =>
          out.entries := out.entries[fullKey := text];
          TextReached(at, fields, texts, here, key, out.entries);
          CollectedOne(texts, before, here + [key], fullKey, text);
        case Sub(nested) =>
          ChildObject(at, fields, texts, here, key);
          UnderShrinks(at, here, key);
          FlattenTranslations(nested, fullKey, out, tree, here + [key]);
      }
      CollectedKeys(texts, before, out.entries);
      FieldReached(texts, here, key, keys, before, out.entries);
      CollectedMore(texts, old(out.entries), before, out.entries);
      keys := keys - {key};
    }
    AllReached(at, fields, texts, here, out.entries);
  }

  lemma NothingCollected(texts: map<Path, string>, entries: map<string, string>)
    ensures Collected(texts, entries, entries)
  {
  }

  lemma CollectedKeys(texts: map<Path, string>, before: map<string, string>, after: map<string, string>)
    requires Collected(texts, before, after)
    ensures before.Keys <= after.Keys
  {
  }

  /** A path leads to a text or to an object, not both. */
  lemma KindsApart(at: map<Path, Node>, fields: map<Path, map<string, Slot>>, texts: map<Path, string>, p: Path)
    requires TreeOk(at, fields, texts) && p in texts
    ensures p !in at
  {
    assert TextOk(fields, texts, p);
    assert FieldOk(at, fields, texts, Parent(p), Last(p));
    assert p == Parent(p) + [Last(p)];
  }

  /** Nothing lies below a text. */
  lemma OnlyText(at: map<Path, Node>, fields: map<Path, map<string, Slot>>, texts: map<Path, string>, there: Path, q: Path)
    requires TreeOk(at, fields, texts) && there in texts && q in texts && there <= q
    ensures q == there
  {
    KindsApart(at, fields, texts, there);
    if q != there {
      assert q[..|there|] == there;
      WayToText(at, fields, texts, q, |there|);
    }
  }

  ghost function Under(at: map<Path, Node>, here: Path): set<Path> {
    set p | p in at && here <= p
  }

  lemma UnderShrinks(at: map<Path, Node>, here: Path, key: string)
    requires here in at
    ensures Under(at, here + [key]) < Under(at, here)
  {
    forall p | p in Under(at, here + [key]) ensures p in Under(at, here) {
      assert here == (here + [key])[..|here|] == p[..|here|];
    }
    assert here in Under(at, here) && here !in Under(at, here + [key]);
  }

  /** Flattening a whole tree. */
  method Flatten(tree: TranslationTree) returns (out: FlatMap)
    requires tree.Valid()
    ensures fresh(out) && IsFlattening(tree.texts, out.entries)
  {
    out := new FlatMap();
    FlattenTranslations(tree.root, "", out, tree, []);
  }

  /** The locale map of a sync: the entries written one by one into an empty tree. */
  method BuildLocaleMap(entries: seq<Entry>) returns (tree: TranslationTree)
    ensures tree.Valid() && tree.NoEmptyObjects() && tree.texts == Build(entries)
  {
    tree := new TranslationTree();
    for i := 0 to |entries|
      invariant tree.Valid() && tree.NoEmptyObjects() && tree.texts == Build(entries[..i])
      invariant fresh(tree) && fresh(tree.at.Values)
    {
      assert entries[..i + 1][..i] == entries[..i];
      tree.SetNestedValue(entries[i].key, entries[i].value);
    }
    assert entries[..|entries|] == entries;
  }

  /** The texts after the cursor has moved down a path: those it met on its way are gone. */
  ghost function Passed(texts: map<Path, string>, p: Path): map<Path, string> {
    map q | q in texts && !(q <= p) :: texts[q]
  }

  lemma PassNone(at: map<Path, Node>, fields: map<Path, map<string, Slot>>, texts: map<Path, string>)
    requires TreeOk(at, fields, texts)
    ensures texts == Passed(texts, [])
  {
    assert TextOk(fields, texts, []);
  }

  lemma PassFurther(texts: map<Path, string>, p: Path, key: string)
    ensures Passed(texts, p + [key]) == map q | q in Passed(texts, p) && q != p + [key] :: Passed(texts, p)[q]
  {
    forall q: Path {:trigger q in texts} ensures q <= p + [key] <==> q <= p || q == p + [key] {
      if q <= p + [key] && |q| <= |p| {
        assert q == (p + [key])[..|q|] == p[..|q|];
      }
    }
  }

  lemma PassedAll(texts: map<Path, string>, parts: Path, value: string)
    requires parts != []
    ensures var passed := Passed(texts, Parent(parts));
      SetText(texts, parts, value) == (map q | q in passed && !(parts <= q) :: passed[q])[parts := value]
  {
    forall q: Path {:trigger q in texts} ensures q <= parts <==> q <= Parent(parts) || q == parts {
      if q <= parts && |q| < |parts| {
        assert q == parts[..|q|] == Parent(parts)[..|q|];
      }
    }
  }

  lemma SamePath(p: Path, k: string, q: Path, l: string)
    ensures p + [k] == q + [l] <==> p == q && k == l
  {
    if p + [k] == q + [l] {
      assert p == (p + [k])[..|p|] && q == (q + [l])[..|q|];
    }
  }

  lemma Below(there: Path, p: Path, k: string)
    ensures there <= p + [k] <==> there <= p || there == p + [k]
  {
    if there <= p + [k] && |there| <= |p| {
      assert there == (p + [k])[..|there|] == p[..|there|];
    }
  }
}
