/** Names inside a workspace archive: "folderPaths", "entryKey" and "uniqueEntryName"
    of internal/httpapi/workspace_export.go. Lower-casing is any function on
    characters that leaves digits alone. */
module ArchiveNames {
  import opened Text

  const MANIFEST := "목록.md"
  const UNTITLED := "제목 없는 문서"
  const DEEPEST := 32

  predicate FoldsCase(lower: char -> char) {
    forall c: char | '0' <= c <= '9' :: lower(c) == c
  }

  /** How names are compared. */
  function EntryKey(lower: char -> char, name: string): (key: string)
    ensures |key| == |name| && forall i | 0 <= i < |key| :: key[i] == lower(name[i])
  {
    seq(|name|, i requires 0 <= i < |name| => lower(name[i]))
  }

  /** Joining path elements that need no cleaning. */
  function PathJoin(directory: string, name: string): string {
    if directory == "" then name else directory + "/" + name
  }

  // ---- The search for a free suffix ----

  /** A name that can be numbered: what stands before the number and after it. */
  datatype Stem = Stem(before: string, after: string) {
    function At(n: nat): string { before + Itoa(n) + after }
  }

  lemma KeyOfNumbered(lower: char -> char, stem: Stem, n: nat)
    requires FoldsCase(lower)
    ensures EntryKey(lower, stem.At(n)) == EntryKey(lower, stem.before) + Itoa(n) + EntryKey(lower, stem.after)
  {
    var key, whole := EntryKey(lower, stem.At(n)), EntryKey(lower, stem.before) + Itoa(n) + EntryKey(lower, stem.after);
    assert |key| == |whole|;
    forall i | 0 <= i < |key|
      ensures key[i] == whole[i]
    {
    }
  }

  /** Two numbers never give names that are equal up to case. */
  lemma NumbersApart(lower: char -> char, stem: Stem, m: nat, n: nat)
    requires FoldsCase(lower) && EntryKey(lower, stem.At(m)) == EntryKey(lower, stem.At(n))
    ensures m == n
  {
    KeyOfNumbered(lower, stem, m);
    KeyOfNumbered(lower, stem, n);
    var before, after := EntryKey(lower, stem.before), EntryKey(lower, stem.after);
    var a, b := before + Itoa(m) + after, before + Itoa(n) + after;
    assert |Itoa(m)| == |Itoa(n)|;
    assert a[|before|..|before| + |Itoa(m)|] == Itoa(m) && b[|before|..|before| + |Itoa(n)|] == Itoa(n);
    ItoaInjective(m, n);
  }

  /** The keys of the numbers from 2 up to n. */
  function Tried(lower: char -> char, stem: Stem, n: nat): (r: set<string>)
    ensures forall k :: k in r <==> exists m: nat :: 2 <= m < n && k == EntryKey(lower, stem.At(m))
  {
    if n <= 2 then {} else Tried(lower, stem, n - 1) + {EntryKey(lower, stem.At(n - 1))}
  }

  lemma FewerUntried(lower: char -> char, used: set<string>, stem: Stem, n: nat)
    requires FoldsCase(lower) && n >= 2 && EntryKey(lower, stem.At(n)) in used
    ensures |used - Tried(lower, stem, n + 1)| < |used - Tried(lower, stem, n)|
  {
    var key := EntryKey(lower, stem.At(n));
    forall m: nat | 2 <= m < n
      ensures EntryKey(lower, stem.At(m)) != key
    {
      if EntryKey(lower, stem.At(m)) == key { NumbersApart(lower, stem, m, n); }
    }
    Smaller(used - Tried(lower, stem, n + 1), used - Tried(lower, stem, n), key);
  }

  /** The search ends: there are more numbers than names in use. */
  method FreeNumber(lower: char -> char, used: set<string>, stem: Stem) returns (n: nat)
    requires FoldsCase(lower)
    ensures n >= 2 && EntryKey(lower, stem.At(n)) !in used
    ensures forall m: nat | 2 <= m < n :: EntryKey(lower, stem.At(m)) in used
  {
    n := 2;
    while EntryKey(lower, stem.At(n)) in used
      invariant n >= 2
      invariant forall m: nat | 2 <= m < n :: EntryKey(lower, stem.At(m)) in used
      decreases |used - Tried(lower, stem, n)|
    {
      FewerUntried(lower, used, stem, n);
      n := n + 1;
    }
  }

  // ---- Documents ----

  /** In its directory, under its title or that of an untitled one: the name as it
      stands, or with the smallest number from 2 on where that is taken. */
  ghost predicate Chosen(lower: char -> char, used: set<string>, directory: string, base: string, extension: string, name: string) {
    var title := (if directory == "" then "" else directory + "/") + if base == "" then UNTITLED else base;
    var plain, stem := title + "." + extension, Stem(title + " (", ")." + extension);
    && EntryKey(lower, name) !in used
    && if EntryKey(lower, plain) !in used then name == plain
       else exists n: nat :: n >= 2 && name == stem.At(n) && forall m: nat | 2 <= m < n :: EntryKey(lower, stem.At(m)) in used
  }

  lemma JoinedTitle(directory: string, title: string, extension: string)
    ensures var joined := (if directory == "" then "" else directory + "/") + title;
            && PathJoin(directory, title + "." + extension) == joined + "." + extension
            && PathJoin(directory, title + " (") == joined + " ("
  {
    if directory != "" {
      assert directory + "/" + (title + "." + extension) == directory + "/" + title + "." + extension;
      assert directory + "/" + (title + " (") == directory + "/" + title + " (";
    }
  }

  method UniqueEntryName(lower: char -> char, used: set<string>, directory: string, base: string, extension: string)
    returns (name: string, claimed: set<string>)
    requires FoldsCase(lower)
    ensures Chosen(lower, used, directory, base, extension, name)
    ensures claimed == used + {EntryKey(lower, name)}
  {
    var title := base;
    if title == "" { title := UNTITLED; }
    JoinedTitle(directory, title, extension);
    name := PathJoin(directory, title + "." + extension);
    if EntryKey(lower, name) in used {
      var stem := Stem(PathJoin(directory, title + " ("), ")." + extension);
      var n := FreeNumber(lower, used, stem);
      name := stem.At(n);
    }
    claimed := used + {EntryKey(lower, name)};
  }

  lemma ChosenIsFree(lower: char -> char, used: set<string>, item: Item, extension: string, name: string)
    requires Chosen(lower, used, item.directory, item.title, extension, name)
    ensures EntryKey(lower, name) !in used
  {
  }

  /** Where a document goes and what it is called. */
  datatype Item = Item(directory: string, title: string)

  ghost predicate DistinctNames(lower: char -> char, names: seq<string>) {
    && (forall i, j | 0 <= i < j < |names| :: EntryKey(lower, names[i]) != EntryKey(lower, names[j]))
    && forall i | 0 <= i < |names| :: EntryKey(lower, names[i]) != EntryKey(lower, MANIFEST)
  }

  /** The keys in use once some names have been given. */
  function KeysOf(lower: char -> char, names: seq<string>): set<string> {
    {EntryKey(lower, MANIFEST)} + set name | name in names :: EntryKey(lower, name)
  }

  /** The names of all documents, each its own title's or that with the smallest number
      not given before: no two are equal up to case, and none is the index's. */
  method EntryNames(lower: char -> char, items: seq<Item>, extension: string) returns (names: seq<string>)
    requires FoldsCase(lower)
    ensures |names| == |items| && DistinctNames(lower, names)
    ensures forall i | 0 <= i < |items| ::
        Chosen(lower, KeysOf(lower, names[..i]), items[i].directory, items[i].title, extension, names[i])
  {
    hide Chosen;
    var used := {EntryKey(lower, MANIFEST)};
    names := [];
    var k := 0;
    while k < |items|
      invariant k <= |items| && |names| == k && DistinctNames(lower, names)
      invariant used == KeysOf(lower, names)
      invariant forall i | 0 <= i < k ::
          Chosen(lower, KeysOf(lower, names[..i]), items[i].directory, items[i].title, extension, names[i])
    {
      var name;
      ghost var before := names;
      name, used := UniqueEntryName(lower, used, items[k].directory, items[k].title, extension);
      assert EntryKey(lower, name) !in KeysOf(lower, names) by { ChosenIsFree(lower, KeysOf(lower, names), items[k], extension, name); }
      assert forall i | 0 <= i < k :: names[i] in names;
      names := names + [name];
      assert names[..k] == before && forall i | 0 <= i < k :: names[..i] == before[..i];
      k := k + 1;
    }
  }

  // ---- Folders ----

  datatype Folder = Folder(parent: Option<nat>, segment: string)

  /** A folder's own name, or that with a number. */
  ghost predicate Named(segment: string, name: string) {
    name == segment || exists n: nat :: n >= 2 && name == segment + " (" + Itoa(n) + ")"
  }

  /** The folder's directory lies in its parent's, or at the top, under its own name. */
  ghost predicate Within(all: map<nat, Folder>, paths: map<nat, string>, f: nat)
    requires f in all && f in paths
  {
    var parent := all[f].parent;
    && (parent.Some? && parent.value in all ==> parent.value in paths)
    && InDirectory(if parent.Some? && parent.value in all && parent.value in paths then paths[parent.value] else "",
                   all[f].segment, paths[f])
  }

  ghost predicate InDirectory(directory: string, segment: string, path: string) {
    exists name :: Named(segment, name) && path == if directory == "" then name else directory + "/" + name
  }

  /** Folders without a circle, and none deeper than the search goes. */
  ghost predicate Shallow(all: map<nat, Folder>, height: map<nat, nat>) {
    && all.Keys <= height.Keys
    && (forall f | f in all :: height[f] <= DEEPEST)
    && (forall f | f in all && all[f].parent.Some? && all[f].parent.value in all :: height[all[f].parent.value] < height[f])
  }

  lemma NumberedInDirectory(directory: string, segment: string, n: nat)
    requires n >= 2
    ensures InDirectory(directory, segment, Stem(PathJoin(directory, segment + " ("), ")").At(n))
    ensures InDirectory(directory, segment, PathJoin(directory, segment))
  {
    var name := segment + " (" + Itoa(n) + ")";
    assert Named(segment, name) && Named(segment, segment);
    assert Stem(PathJoin(directory, segment + " ("), ")").At(n) == PathJoin(directory, name);
  }

  /** Every path has a key of its own, the index's apart, and every key is claimed. */
  ghost predicate Claims(lower: char -> char, paths: map<nat, string>, claimed: set<string>) {
    && EntryKey(lower, MANIFEST) in claimed
    && (forall f | f in paths :: EntryKey(lower, paths[f]) in claimed && EntryKey(lower, paths[f]) != EntryKey(lower, MANIFEST))
    && (forall f, g | f in paths && g in paths && f != g :: EntryKey(lower, paths[f]) != EntryKey(lower, paths[g]))
  }

  lemma ClaimsOneMore(lower: char -> char, paths: map<nat, string>, claimed: set<string>, f: nat, path: string)
    requires Claims(lower, paths, claimed) && EntryKey(lower, path) !in claimed
    ensures Claims(lower, paths[f := path], claimed + {EntryKey(lower, path)})
  {
  }

  /** The folder's name in its directory, numbered where that is taken. */
  method FreePath(lower: char -> char, claimed: set<string>, prefix: string, segment: string) returns (result: string)
    requires FoldsCase(lower)
    ensures EntryKey(lower, result) !in claimed && InDirectory(prefix, segment, result)
  {
    result := PathJoin(prefix, segment);
    NumberedInDirectory(prefix, segment, 2);
    if EntryKey(lower, result) in claimed {
      var stem := Stem(PathJoin(prefix, segment + " ("), ")");
      var n := FreeNumber(lower, claimed, stem);
      NumberedInDirectory(prefix, segment, n);
      result := stem.At(n);
    }
  }

  class FolderPaths {
    const all: map<nat, Folder>
    const lower: char -> char
    ghost const height: map<nat, nat>
    var paths: map<nat, string>
    var claimed: set<string>

    ghost predicate Valid()
      reads this
    {
      FoldsCase(lower) && Claims(lower, paths, claimed)
    }

    /** Every path given so far lies in that of the folder above. */
    ghost predicate Nested()
      reads this
    {
      forall f | f in paths :: f in all && Within(all, paths, f)
    }

    constructor (all: map<nat, Folder>, lower: char -> char, ghost height: map<nat, nat>)
      requires FoldsCase(lower)
      ensures Valid() && Nested() && this.all == all && this.lower == lower && this.height == height && paths == map[]
    {
      this.all, this.lower, this.height, paths, claimed := all, lower, height, map[], {EntryKey(lower, MANIFEST)};
    }

    /** A path for the folder and, before it, for the folders above. In a circle of
        folders the depth runs out, and a folder may be given a path again: a new one. */
    method Resolve(id: nat, depth: nat) returns (result: string)
      requires Valid() && depth <= DEEPEST + 1
      modifies this
      ensures Valid() && old(paths).Keys <= paths.Keys && old(claimed) <= claimed
      ensures depth <= DEEPEST && id in all ==> id in paths && result == paths[id]
      ensures id in old(paths) ==> paths == old(paths) && result == paths[id]
      ensures old(Nested()) && Shallow(all, height) && id in all && depth + height[id] <= DEEPEST ==>
                && Nested()
                && (forall f | f in paths && f !in old(paths) :: height[f] <= height[id])
                && (forall f | f in old(paths) :: paths[f] == old(paths)[f])
      ensures id !in all && id !in old(paths) ==> result == "" && paths == old(paths)
      decreases DEEPEST + 1 - depth
    {
      hide Within, InDirectory, EntryKey, Claims;
      if id in paths { return paths[id]; }
      if depth > DEEPEST || id !in all { return ""; }
      var prefix := "";
      if all[id].parent.Some? {
        prefix := Resolve(all[id].parent.value, depth + 1);
      }
      ghost var above := paths;
      result := FreePath(lower, claimed, prefix, all[id].segment);
      ClaimsOneMore(lower, paths, claimed, id, result);
      claimed := claimed + {EntryKey(lower, result)};
      paths := paths[id := result];
      if old(Nested()) && Shallow(all, height) && depth + height[id] <= DEEPEST {
        StaysNested(all, above, id, prefix, result);
      }
    }

    method ResolveAll(order: seq<nat>)
      requires Valid() && Nested()
      modifies this
      ensures Valid() && forall f | f in order && f in all :: f in paths
      ensures Shallow(all, height) ==> Nested()
    {
      hide Within, Valid;
      var k := 0;
      while k < |order|
        invariant k <= |order| && Valid() && (Shallow(all, height) ==> Nested())
        invariant forall i | 0 <= i < k && order[i] in all :: order[i] in paths
      {
        var _ := Resolve(order[k], 0);
        k := k + 1;
      }
    }
  }

  /** A new path for a folder that had none disturbs nothing: nothing lay in it yet. */
  lemma StaysNested(all: map<nat, Folder>, paths: map<nat, string>, id: nat, prefix: string, result: string)
    requires id in all && id !in paths && InDirectory(prefix, all[id].segment, result)
    requires forall f | f in paths :: f in all && Within(all, paths, f)
    requires var parent := all[id].parent;
             && (parent.Some? && parent.value in all ==> parent.value in paths)
             && prefix == if parent.Some? && parent.value in all then paths[parent.value] else ""
    ensures var after := paths[id := result];
            forall f | f in after :: f in all && Within(all, after, f)
  {
    var after := paths[id := result];
    forall f | f in after
      ensures f in all && Within(all, after, f)
    {
      if f != id { assert Within(all, paths, f); }
    }
  }

  /** For every set of folders, circles included: each listed folder gets a directory,
      and no two of them are equal up to case or equal to the index. Without a circle,
      and down to the depth that is searched, each lies in the directory of the folder
      above under its own name, numbered where that is taken. */
  method PathsOf(all: map<nat, Folder>, order: seq<nat>, lower: char -> char) returns (paths: map<nat, string>)
    requires FoldsCase(lower)
    ensures forall f | f in order && f in all :: f in paths
    ensures forall f, g | f in paths && g in paths && f != g :: EntryKey(lower, paths[f]) != EntryKey(lower, paths[g])
    ensures forall f | f in paths :: EntryKey(lower, paths[f]) != EntryKey(lower, MANIFEST)
    ensures (exists height :: Shallow(all, height)) ==> forall f | f in paths :: f in all && Within(all, paths, f)
  {
    ghost var height := map[];
    if exists height :: Shallow(all, height) {
      height :| Shallow(all, height);
    }
    var work := new FolderPaths(all, lower, height);
    work.ResolveAll(order);
    paths := work.paths;
  }
}
