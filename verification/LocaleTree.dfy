/** Nested translation objects, their flattened form with dotted keys, and rebuilding the one from the other. */
module LocaleTree {

  type Path = seq<string>

  // ----- dotted keys

  /** `key.split(".")`. */
  function Split(key: string): (parts: Path)
    ensures |parts| >= 1
    ensures forall i :: 0 <= i < |parts| ==> '.' !in parts[i]
  {
    if key == "" then [""]
    else
      var rest := Split(key[1..]);
      if key[0] == '.' then [""] + rest else [[key[0]] + rest[0]] + rest[1..]
  }

  /** The key of a nested entry; an empty prefix counts as none. */
  function FullKey(prefix: string, key: string): string {
    if prefix == "" then key else prefix + "." + key
  }

  /** The full key under which flattening lists the text at a path. */
  function Dotted(path: Path): string {
    if path == [] then "" else FullKey(Dotted(path[..|path| - 1]), path[|path| - 1])
  }

  /** `path.join(".")`. */
  function Join(path: Path): string {
    if path == [] then ""
    else if |path| == 1 then path[0]
    else path[0] + "." + Join(path[1..])
  }

  lemma {:induction false} JoinSnoc(path: Path, part: string)
    requires path != []
    ensures Join(path + [part]) == Join(path) + "." + part
  {
    if |path| == 1 {
      assert (path + [part])[1..] == [part];
    } else {
      JoinSnoc(path[1..], part);
      assert (path + [part])[1..] == path[1..] + [part];
    }
  }

  lemma {:induction false} DottedIsJoin(path: Path)
    requires path != [] && (|path| > 1 ==> path[0] != "")
    ensures Dotted(path) == Join(path)
    decreases |path|
  {
    if |path| > 1 {
      var front := path[..|path| - 1];
      DottedIsJoin(front);
      JoinSnoc(front, path[|path| - 1]);
      assert path == front + [path[|path| - 1]];
      assert Join(front) != "" by {
        assert Join(front)[0] == front[0][0];
      }
    } else {
      assert path[..0] == [];
    }
  }

  lemma {:induction false} JoinSplit(key: string)
    ensures Join(Split(key)) == key
  {
    if key != "" {
      JoinSplit(key[1..]);
      var rest := Split(key[1..]);
      if key[0] == '.' {
        assert ([""] + rest)[1..] == rest;
      } else {
        var parts := [[key[0]] + rest[0]] + rest[1..];
        assert parts[1..] == rest[1..];
      }
    }
  }

  lemma {:induction false} SplitPart(part: string, rest: string)
    requires '.' !in part
    ensures Split(part + "." + rest) == [part] + Split(rest)
  {
    var key := part + "." + rest;
    if part == "" {
      assert key[1..] == rest;
    } else {
      assert key[1..] == part[1..] + "." + rest;
      SplitPart(part[1..], rest);
      assert Split(key[1..])[0] == part[1..];
      assert [part[0]] + part[1..] == part;
    }
  }

  lemma {:induction false} SplitWhole(part: string)
    requires '.' !in part
    ensures Split(part) == [part]
  {
    if part != "" {
      SplitWhole(part[1..]);
      assert [part[0]] + part[1..] == part;
    }
  }

  lemma {:induction false} SplitJoin(path: Path)
    requires path != [] && forall i :: 0 <= i < |path| ==> '.' !in path[i]
    ensures Split(Join(path)) == path
  {
    if |path| == 1 {
      SplitWhole(path[0]);
    } else {
      SplitJoin(path[1..]);
      SplitPart(path[0], Join(path[1..]));
    }
  }

  predicate LeadingDot(key: string) {
    key != "" && key[0] == '.'
  }

  lemma {:induction false} DottedNoLeadingDot(path: Path)
    requires forall i :: 0 <= i < |path| ==> '.' !in path[i]
    ensures !LeadingDot(Dotted(path))
    decreases |path|
  {
    if path != [] {
      DottedNoLeadingDot(path[..|path| - 1]);
    }
  }

  /** Splitting a key and listing it again gives the key back exactly when it does not begin with a dot. */
  lemma DottedSplit(key: string)
    ensures Dotted(Split(key)) == key <==> !LeadingDot(key)
  {
    if LeadingDot(key) {
      DottedNoLeadingDot(Split(key));
    } else {
      JoinSplit(key);
      DottedIsJoin(Split(key));
    }
  }

  // ----- what a tree says, path by path

  predicate Comparable(p: Path, q: Path) {
    p <= q || q <= p
  }

  /** The texts after a value is written at p: whatever lay on the way to p or below it is gone. */
  function SetText(texts: map<Path, string>, p: Path, value: string): map<Path, string> {
    (map q | q in texts && !Comparable(q, p) :: texts[q])[p := value]
  }

  datatype Entry = Entry(key: string, value: string)

  /** The texts after the entries have been written one after the other. */
  function Build(entries: seq<Entry>): map<Path, string> {
    if entries == [] then map[]
    else
      var last := entries[|entries| - 1];
      SetText(Build(entries[..|entries| - 1]), Split(last.key), last.value)
  }

  predicate DistinctKeys(entries: seq<Entry>) {
    forall i, j :: 0 <= i < j < |entries| ==> entries[i].key != entries[j].key
  }

  function AsMap(entries: seq<Entry>): map<string, string> {
    if entries == [] then map[]
    else AsMap(entries[..|entries| - 1])[entries[|entries| - 1].key := entries[|entries| - 1].value]
  }

  /** No key is the beginning of another, part by part. */
  ghost predicate PrefixFree(keys: set<string>) {
    forall k, l :: k in keys && l in keys && k != l ==> !(Split(k) <= Split(l))
  }

  /** A flattened form of the texts: it lists each text under its full key. Where two texts get the same
      full key either may win. */
  ghost predicate IsFlattening(texts: map<Path, string>, out: map<string, string>) {
    && (forall q :: q in texts ==> Dotted(q) in out)
    && (forall k :: k in out ==> exists q :: ListedAs(texts, q, k, out[k]))
  }

  ghost predicate ListedAs(texts: map<Path, string>, q: Path, key: string, value: string) {
    q in texts && Dotted(q) == key && texts[q] == value
  }

  lemma {:induction false} AsMapKeys(entries: seq<Entry>)
    ensures AsMap(entries).Keys == (set e | e in entries :: e.key)
    decreases |entries|
  {
    if entries != [] {
      var front, last := entries[..|entries| - 1], entries[|entries| - 1];
      AsMapKeys(front);
      assert entries == front + [last];
      assert (set e | e in entries :: e.key) == (set e | e in front :: e.key) + {last.key};
    }
  }

  /** The texts of a build never lie above one another, and each is the value of its key. */
  lemma {:induction false} BuildTexts(entries: seq<Entry>)
    requires DistinctKeys(entries)
    ensures forall p, q :: p in Build(entries) && q in Build(entries) && p != q ==> !(p <= q)
    ensures forall q :: q in Build(entries) ==> Join(q) in AsMap(entries) && AsMap(entries)[Join(q)] == Build(entries)[q]
    ensures forall q :: q in Build(entries) ==> q == Split(Join(q))
    decreases |entries|
  {
    if entries != [] {
      var front, last := entries[..|entries| - 1], entries[|entries| - 1];
      BuildTexts(front);
      var p := Split(last.key);
      JoinSplit(last.key);
      assert Join(p) == last.key;
      forall q | q in Build(entries)
        ensures Join(q) in AsMap(entries) && AsMap(entries)[Join(q)] == Build(entries)[q] && q == Split(Join(q))
      {
        if q != p {
          assert q in Build(front);
          assert Join(q) != last.key;
        }
      }
    }
  }

  /** When no key begins another, the build keeps every entry. */
  lemma {:induction false} BuildKeepsAll(entries: seq<Entry>, k: string)
    requires DistinctKeys(entries) && PrefixFree(AsMap(entries).Keys) && k in AsMap(entries)
    ensures Split(k) in Build(entries) && Build(entries)[Split(k)] == AsMap(entries)[k]
    decreases |entries|
  {
    var front, last := entries[..|entries| - 1], entries[|entries| - 1];
    assert AsMap(front).Keys <= AsMap(entries).Keys;
    if k != last.key {
      BuildKeepsAll(front, k);
      assert !Comparable(Split(k), Split(last.key));
    }
  }

  /** Rebuilding from entries and flattening again gives the entries back, in whatever order they were
      written, exactly when no key begins another and none begins with a dot. */
  lemma FlattenOfBuild(entries: seq<Entry>, out: map<string, string>)
    requires DistinctKeys(entries) && IsFlattening(Build(entries), out)
    ensures out == AsMap(entries) <==>
      PrefixFree(AsMap(entries).Keys) && forall k :: k in AsMap(entries) ==> !LeadingDot(k)
  {
    var texts, all := Build(entries), AsMap(entries);
    BuildTexts(entries);
    if out == all {
      ListsAllFree(entries, out);
    }
    if PrefixFree(all.Keys) && forall k :: k in all ==> !LeadingDot(k) {
      FreeListsAll(entries, out);
    }
  }

  /** A key that begins with a dot comes back without it. */
  lemma LeadingDotIsLost(out: map<string, string>)
    ensures IsFlattening(Build([Entry(".a", "x")]), out) <==> out == map["a" := "x"]
  {
    DotIsEmptyPart();
    hide Split, Dotted, Build;
    var q := ["", "a"];
    if IsFlattening(map[q := "x"], out) {
      forall k | k in out ensures k == "a" && out[k] == "x" {
        var p :| ListedAs(map[q := "x"], p, k, out[k]);
      }
      assert Dotted(q) in out;
    }
    if out == map["a" := "x"] {
      assert ListedAs(map[q := "x"], q, "a", "x");
    }
  }

  lemma DotIsEmptyPart()
    ensures Build([Entry(".a", "x")]) == map[["", "a"] := "x"] && Dotted(["", "a"]) == "a"
  {
    SplitWhole("a");
    SplitPart("", "a");
    assert Split(".a") == ["", "a"];
    hide Split, Join;
    var e := Entry(".a", "x");
    assert [e][..0] == [];
    assert Build([]) == map[];
    assert ["", "a"][..1] == [""] && [""][..0] == [];
    assert Dotted([]) == "" && Dotted([""]) == "" && Dotted(["", "a"]) == "a";
  }

  /** A listed key comes from a path of the build; the key that path was written under may be another. */
  lemma ListedFrom(entries: seq<Entry>, out: map<string, string>, k: string) returns (q: Path)
    requires DistinctKeys(entries) && IsFlattening(Build(entries), out) && k in out
    ensures q in Build(entries) && Dotted(q) == k && q == Split(Join(q)) && !LeadingDot(k)
    ensures Join(q) in AsMap(entries) && AsMap(entries)[Join(q)] == out[k]
    ensures !LeadingDot(Join(q)) ==> Join(q) == k
  {
    BuildTexts(entries);
    q :| ListedAs(Build(entries), q, k, out[k]);
    DottedNoLeadingDot(q);
    DottedSplit(Join(q));
  }

  lemma ListsAllFree(entries: seq<Entry>, out: map<string, string>)
    requires DistinctKeys(entries) && IsFlattening(Build(entries), out) && out == AsMap(entries)
    ensures PrefixFree(out.Keys) && forall k :: k in out ==> !LeadingDot(k)
  {
    hide Build, AsMap, IsFlattening, Dotted;
    forall k | k in out ensures !LeadingDot(k) {
      var q := ListedFrom(entries, out, k);
    }
    forall k | k in out ensures Split(k) in Build(entries) {
      var q := ListedFrom(entries, out, k);
    }
    forall k, l | k in out && l in out && k != l ensures !(Split(k) <= Split(l)) {
      BuildTexts(entries);
      JoinSplit(k);
      JoinSplit(l);
    }
  }

  lemma FreeListsAll(entries: seq<Entry>, out: map<string, string>)
    requires DistinctKeys(entries) && IsFlattening(Build(entries), out)
    requires PrefixFree(AsMap(entries).Keys) && forall k :: k in AsMap(entries) ==> !LeadingDot(k)
    ensures out == AsMap(entries)
  {
    forall k | k in AsMap(entries) ensures k in out {
      BuildKeepsAll(entries, k);
      DottedSplit(k);
    }
    hide Build, AsMap, IsFlattening, Dotted;
    forall k | k in out ensures k in AsMap(entries) && AsMap(entries)[k] == out[k] {
      var q := ListedFrom(entries, out, k);
    }
  }

  // ----- flattening a tree and rebuilding it

  /** The texts of a tree of nested objects with non-empty keys that hold no dot. */
  ghost predicate PlainTexts(texts: map<Path, string>) {
    && (forall p, q :: p in texts && q in texts && p != q ==> !(p <= q))
    && (forall q :: q in texts ==> PlainPath(q))
  }

  ghost predicate PlainPath(q: Path) {
    q != [] && q[0] != "" && forall i :: 0 <= i < |q| ==> '.' !in q[i]
  }

  lemma PlainDotted(q: Path)
    requires PlainPath(q)
    ensures Split(Dotted(q)) == q && !LeadingDot(Dotted(q))
  {
    DottedIsJoin(q);
    SplitJoin(q);
    DottedNoLeadingDot(q);
  }

  /** The flattened form of a plain tree, written back entry by entry in any order, has the tree's own texts. */
  lemma RebuildOriginal(texts: map<Path, string>, entries: seq<Entry>)
    requires PlainTexts(texts) && DistinctKeys(entries) && IsFlattening(texts, AsMap(entries))
    ensures Build(entries) == texts
  {
    PlainKeysFree(texts, AsMap(entries));
    forall q | q in texts ensures q in Build(entries) && Build(entries)[q] == texts[q] {
      PlainDotted(q);
      BuildKeepsAll(entries, Dotted(q));
      PlainListed(texts, AsMap(entries), Dotted(q));
    }
    RebuildAddsNone(texts, entries);
  }

  lemma RebuildAddsNone(texts: map<Path, string>, entries: seq<Entry>)
    requires PlainTexts(texts) && DistinctKeys(entries) && IsFlattening(texts, AsMap(entries))
    ensures Build(entries).Keys <= texts.Keys
  {
    BuildTexts(entries);
    forall q | q in Build(entries) ensures q in texts {
      assert q == Split(Join(q)) && Join(q) in AsMap(entries);
      PlainListed(texts, AsMap(entries), Join(q));
    }
  }

  lemma PlainKeysFree(texts: map<Path, string>, all: map<string, string>)
    requires PlainTexts(texts) && IsFlattening(texts, all)
    ensures PrefixFree(all.Keys)
  {
    forall k, l | k in all.Keys && l in all.Keys && k != l ensures !(Split(k) <= Split(l)) {
      PlainListed(texts, all, k);
      PlainListed(texts, all, l);
      JoinSplit(k);
      JoinSplit(l);
    }
  }

  lemma PlainListed(texts: map<Path, string>, all: map<string, string>, k: string)
    requires PlainTexts(texts) && IsFlattening(texts, all) && k in all
    ensures Split(k) in texts && texts[Split(k)] == all[k]
  {
    var q :| ListedAs(texts, q, k, all[k]);
    PlainDotted(q);
  }
}
