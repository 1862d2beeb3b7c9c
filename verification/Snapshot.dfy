/** Reviewed source snapshots (scripts/source_snapshot.py): paths, inventories, creation and verification. */
module Snapshot {
  import opened ByteStrings
  import opened Outcomes
  import opened Texts

  const MANIFEST: string := "source-manifest.json"
  const CARGO: string := "Cargo.toml"

  /** A path below the snapshot's root, by components; trees do not contain the root itself. */
  type Path = seq<string>

  datatype Node = Directory | File(data: Bytes, executable: bool) | Special

  type Tree = map<Path, Node>

  datatype Entry = Entry(path: string, sha256: string, executable: bool)

  datatype Manifest = Manifest(version: int, files: seq<Entry>)

  /** JSON and SHA-256; `decode` is None for anything that is not a manifest of the right shape. */
  datatype Codec = Codec(encode: Manifest -> Bytes, decode: Bytes -> Option<Manifest>, hexDigest: Bytes -> string)

  ghost predicate DecodesItsOwn(codec: Codec)
  {
    forall m :: codec.decode(codec.encode(m)) == Some(m)
  }

  // -------------------------------------------------------------------- paths

  /** PurePosixPath drops empty and "." components. */
  function Kept(fields: seq<string>): (parts: seq<string>)
    ensures forall i :: 0 <= i < |parts| ==> parts[i] in fields && parts[i] != "" && parts[i] != "."
  {
    if fields == [] then []
    else (if fields[0] == "" || fields[0] == "." then [] else [fields[0]]) + Kept(fields[1..])
  }

  predicate Absolute(value: string)
  {
    value != "" && value[0] == '/'
  }

  /** `str(PurePosixPath(value))` of a relative path. */
  function PosixText(value: string): (s: string)
  {
    var parts := Kept(Split(value, '/'));
    if parts == [] then "." else Join(parts, '/')
  }

  /** `relative_path` accepts the value. */
  predicate RelativePath(value: string)
  {
    && value != "" && Kept(Split(value, '/')) != [] && !Absolute(value)
    && PosixText(value) == value && ".." !in Kept(Split(value, '/'))
    && value != MANIFEST
  }

  predicate Plain(component: string)
  {
    component != "" && component != "." && component != ".."
  }

  lemma {:induction false} KeptAll(fields: seq<string>)
    requires forall i :: 0 <= i < |fields| ==> Plain(fields[i])
    ensures Kept(fields) == fields
  {
    if fields != [] {
      assert fields == [fields[0]] + fields[1..];
      KeptAll(fields[1..]);
    }
  }

  /** The accepted paths are exactly the slash-joined plain components other than the manifest's name. */
  lemma RelativePathsArePlain(value: string)
    ensures RelativePath(value) <==>
      value != MANIFEST && forall i :: 0 <= i < |Split(value, '/')| ==> Plain(Split(value, '/')[i])
  {
    hide Split, Join;
    var fields := Split(value, '/');
    JoinInvertsSplit(value, '/');
    if forall i :: 0 <= i < |fields| ==> Plain(fields[i]) {
      KeptAll(fields);
      FirstFieldPlain(value);
    }
    if RelativePath(value) {
      SplitInvertsJoin(Kept(fields), '/');
      assert fields == Kept(fields);
    }
  }

  lemma FirstFieldPlain(value: string)
    requires Plain(Split(value, '/')[0])
    ensures value != "" && value[0] != '/'
  {}

  function Components(name: string): (p: Path)
    ensures |p| >= 1
  {
    Split(name, '/')
  }

  lemma ComponentsAreInjective(a: string, b: string)
    requires Components(a) == Components(b)
    ensures a == b
  {
    JoinInvertsSplit(a, '/');
    JoinInvertsSplit(b, '/');
  }

  // -------------------------------------------------------------- inventories

  predicate Digest64(s: string)
  {
    |s| == 64 && forall i :: 0 <= i < |s| ==> '0' <= s[i] <= '9' || 'a' <= s[i] <= 'f'
  }

  /** `re.fullmatch` of 64 lowercase hexadecimal digits. */
  method FullDigest(s: string) returns (ok: bool)
    ensures ok <==> Digest64(s)
  {
    if |s| != 64 { return false; }
    for i := 0 to 64
      invariant forall j :: 0 <= j < i ==> '0' <= s[j] <= '9' || 'a' <= s[j] <= 'f'
    {
      if !('0' <= s[i] <= '9') && !('a' <= s[i] <= 'f') { return false; }
    }
    ok := true;
  }

  predicate GoodEntry(e: Entry)
  {
    RelativePath(e.path) && Digest64(e.sha256)
  }

  predicate ValidInventory(entries: seq<Entry>)
  {
    && (forall i :: 0 <= i < |entries| ==> GoodEntry(entries[i]))
    && (forall i, j :: 0 <= i < j < |entries| ==> entries[i].path != entries[j].path)
    && (exists i :: 0 <= i < |entries| && entries[i].path == CARGO)
  }

  /** `entries_by_path`: the dictionary exists exactly for a valid inventory. */
  method EntriesByPath(entries: seq<Entry>) returns (r: Option<map<string, Entry>>)
    ensures r.Some? <==> ValidInventory(entries)
    ensures r.Some? ==>
      && (forall i :: 0 <= i < |entries| ==> entries[i].path in r.value && r.value[entries[i].path] == entries[i])
      && (forall name :: name in r.value ==> r.value[name] in entries && r.value[name].path == name)
  {
    hide RelativePath, Digest64;
    var result: map<string, Entry> := map[];
    for k := 0 to |entries|
      invariant forall i :: 0 <= i < k ==> GoodEntry(entries[i])
      invariant forall i, j :: 0 <= i < j < k ==> entries[i].path != entries[j].path
      invariant forall i :: 0 <= i < k ==> entries[i].path in result && result[entries[i].path] == entries[i]
      invariant forall name :: name in result ==> exists i :: 0 <= i < k && entries[i] == result[name] && entries[i].path == name
    {
      if !RelativePath(entries[k].path) { return None; }
      if entries[k].path in result { return None; }
      var digest := FullDigest(entries[k].sha256);
      if !digest { return None; }
      result := result[entries[k].path := entries[k]];
    }
    if CARGO !in result { return None; }
    r := Some(result);
  }

  function Names(entries: seq<Entry>): (paths: set<Path>)
  {
    set i | 0 <= i < |entries| :: Components(entries[i].path)
  }

  // -------------------------------------------------------------------- trees

  /** The directories above a path. */
  function Above(p: Path): (dirs: set<Path>)
  {
    set i | 0 < i < |p| :: p[..i]
  }

  function Ancestors(paths: set<Path>): (dirs: set<Path>)
  {
    set p, d | p in paths && d in Above(p) :: d
  }

  /** In a file system, whatever exists lies in directories. */
  ghost predicate WellFormed(tree: Tree)
  {
    forall p, d :: p in tree && d in Above(p) ==> d in tree && tree[d].Directory?
  }

  /** `file_content`: real directories down to a regular file. */
  function ReadFile(tree: Tree, p: Path): (r: Option<(Bytes, bool)>)
  {
    if (forall d :: d in Above(p) ==> d in tree && tree[d].Directory?) && p in tree && tree[p].File?
    then Some((tree[p].data, tree[p].executable)) else None
  }

  predicate Matches(codec: Codec, tree: Tree, e: Entry)
  {
    var content := ReadFile(tree, Components(e.path));
    content.Some? && codec.hexDigest(content.value.0) == e.sha256 && content.value.1 == e.executable
  }

  /** Make the parents, then create the file exclusively. */
  function AddFile(tree: Tree, p: Path, file: Node): (r: Option<Tree>)
  {
    if p in tree || exists d :: d in Above(p) && d in tree && !tree[d].Directory? then None
    else Some((map q | q in tree.Keys + Above(p) :: if q in tree then tree[q] else Directory)[p := file])
  }

  // ------------------------------------------------------------- verification

  function ReadManifest(codec: Codec, tree: Tree): (r: Option<Manifest>)
  {
    if [MANIFEST] !in tree || !tree[[MANIFEST]].File? then None else
    var m := codec.decode(tree[[MANIFEST]].data);
    if m.Some? && m.value.version == 1 && ValidInventory(m.value.files) then m else None
  }

  predicate NodeAllowed(dirs: set<Path>, p: Path, node: Node)
  {
    match node
    case Directory => p in dirs
    case File(_, _) => true
    case Special => false
  }

  function RegularFiles(tree: Tree): (paths: set<Path>)
  {
    set p | p in tree && tree[p].File?
  }

  /** What `verify_snapshot` checks. */
  predicate Verifies(codec: Codec, tree: Tree)
  {
    && ReadManifest(codec, tree).Some?
    && var files := ReadManifest(codec, tree).value.files;
    && (forall p :: p in tree ==> NodeAllowed(Ancestors(Names(files)), p, tree[p]))
    && RegularFiles(tree) == Names(files) + {[MANIFEST]}
    && (forall i :: 0 <= i < |files| ==> Matches(codec, tree, files[i]))
  }

  method VerifySnapshot(codec: Codec, tree: Tree) returns (ok: bool)
    ensures ok <==> Verifies(codec, tree)
  {
    hide ReadFile, ValidInventory, Ancestors, Names, Matches;
    var manifest := ReadManifest(codec, tree);
    if manifest.None? { return false; }
    var files := manifest.value.files;
    var expectedDirs := Ancestors(Names(files));
    var actual: set<Path> := {};
    var rest := tree.Keys;
    while rest != {}
      invariant rest <= tree.Keys
      invariant forall p :: p in tree && p !in rest ==> NodeAllowed(expectedDirs, p, tree[p])
      invariant actual == RegularFiles(tree) - rest
      decreases rest
    {
      var p :| p in rest;
      if !NodeAllowed(expectedDirs, p, tree[p]) { return false; }
      if tree[p].File? { actual := actual + {p}; }
      rest := rest - {p};
    }
    if actual != Names(files) + {[MANIFEST]} { return false; }
    for i := 0 to |files|
      invariant forall j :: 0 <= j < i ==> Matches(codec, tree, files[j])
    {
      if !Matches(codec, tree, files[i]) { return false; }
    }
    ok := true;
  }

  /** The tree holds the inventory, the manifest, their directories and nothing else. */
  ghost predicate ExactTree(codec: Codec, tree: Tree, files: seq<Entry>)
  {
    var names := Names(files);
    && tree.Keys == names + {[MANIFEST]} + Ancestors(names)
    && (forall p :: p in names + {[MANIFEST]} ==> tree[p].File?)
    && (forall d :: d in Ancestors(names) ==> tree[d].Directory?)
    && (forall i :: 0 <= i < |files| ==>
          var p := Components(files[i].path);
          p in tree && tree[p].File? && codec.hexDigest(tree[p].data) == files[i].sha256
          && tree[p].executable == files[i].executable)
  }

  lemma AncestorsExist(tree: Tree, names: set<Path>, d: Path)
    requires WellFormed(tree) && names <= tree.Keys && d in Ancestors(names)
    ensures d in tree && tree[d].Directory?
  {
    var p :| p in names && d in Above(p);
  }

  lemma NameIn(files: seq<Entry>, i: nat)
    requires i < |files|
    ensures Components(files[i].path) in Names(files)
  {}

  /**
    For a snapshot on a file system with a well-formed manifest, verification
    accepts exactly when the regular files are the inventory plus the manifest
    with matching digests and flags, the directories are exactly their
    ancestors, and nothing else exists.
   */
  lemma VerificationIsExact(codec: Codec, tree: Tree)
    requires WellFormed(tree) && ReadManifest(codec, tree).Some?
    ensures Verifies(codec, tree) <==> ExactTree(codec, tree, ReadManifest(codec, tree).value.files)
  {
    hide Components, Names, Ancestors, ValidInventory, Above;
    var files := ReadManifest(codec, tree).value.files;
    var names := Names(files);
    if Verifies(codec, tree) {
      assert names <= RegularFiles(tree);
      forall d | d in Ancestors(names) ensures d in tree && tree[d].Directory? { AncestorsExist(tree, names, d); }
      forall p | p in tree ensures p in names + {[MANIFEST]} + Ancestors(names) {
        assert NodeAllowed(Ancestors(names), p, tree[p]);
        if tree[p].File? { assert p in RegularFiles(tree); }
      }
      forall p | p in names + {[MANIFEST]} ensures p in tree && tree[p].File? { assert p in RegularFiles(tree); }
      forall i | 0 <= i < |files|
        ensures var p := Components(files[i].path);
          p in tree && tree[p].File? && codec.hexDigest(tree[p].data) == files[i].sha256
          && tree[p].executable == files[i].executable
      {
        assert Matches(codec, tree, files[i]);
      }
    }
    if ExactTree(codec, tree, files) {
      forall i | 0 <= i < |files| ensures Matches(codec, tree, files[i]) {
        NameIn(files, i);
        FileIsReadable(tree, Components(files[i].path));
      }
      assert RegularFiles(tree) == names + {[MANIFEST]};
    }
  }

  /** The manifest is a regular file that says version one and these files. */
  ghost predicate ManifestSays(codec: Codec, tree: Tree, files: seq<Entry>)
  {
    && [MANIFEST] in tree && tree[[MANIFEST]].File?
    && codec.decode(tree[[MANIFEST]].data) == Some(Manifest(1, files))
  }

  /** A snapshot is accepted exactly when a version-one manifest with a valid inventory describes its whole tree. */
  lemma AcceptedSnapshots(codec: Codec, tree: Tree)
    requires WellFormed(tree)
    ensures Verifies(codec, tree) <==>
      exists files :: ManifestSays(codec, tree, files) && ValidInventory(files) && ExactTree(codec, tree, files)
  {
    hide ValidInventory, ExactTree, Ancestors, Names, Matches, NodeAllowed, RegularFiles, WellFormed;
    if ReadManifest(codec, tree).Some? {
      VerificationIsExact(codec, tree);
      assert ManifestSays(codec, tree, ReadManifest(codec, tree).value.files);
    }
  }

  /** A source entry matches exactly when real directories lead to a regular file with its digest and flag. */
  lemma MatchIsExact(codec: Codec, tree: Tree, e: Entry, data: Bytes, executable: bool)
    requires Components(e.path) in tree && tree[Components(e.path)] == File(data, executable)
    ensures Matches(codec, tree, e) <==>
      && (forall i :: 0 < i < |Components(e.path)| ==>
            Components(e.path)[..i] in tree && tree[Components(e.path)[..i]].Directory?)
      && codec.hexDigest(data) == e.sha256 && executable == e.executable
  {
    hide Components;
    var p := Components(e.path);
    forall i | 0 < i < |p| ensures p[..i] in Above(p) {}
  }

  lemma FileIsReadable(tree: Tree, p: Path)
    requires WellFormed(tree) && p in tree && tree[p].File?
    ensures ReadFile(tree, p) == Some((tree[p].data, tree[p].executable))
  {}

  // ----------------------------------------------------------------- creation

  /** No path lies below another. */
  ghost predicate PrefixFree(paths: set<Path>)
  {
    paths !! Ancestors(paths)
  }

  /** The tree of some files: they and their directories. */
  function TreeOf(files: map<Path, Node>): (tree: Tree)
  {
    map p | p in files.Keys + Ancestors(files.Keys) :: if p in files then files[p] else Directory
  }

  ghost predicate AllFiles(files: map<Path, Node>)
  {
    forall p :: p in files ==> files[p].File?
  }

  lemma AncestorsOfOneMore(paths: set<Path>, p: Path)
    ensures Ancestors(paths + {p}) == Ancestors(paths) + Above(p)
  {
    hide Above;
    forall d | d in Ancestors(paths) + Above(p) ensures d in Ancestors(paths + {p}) {
      if d in Ancestors(paths) {
        var q :| q in paths && d in Above(q);
        assert q in paths + {p};
      } else {
        assert p in paths + {p};
      }
    }
  }

  lemma NotAboveItself(p: Path)
    ensures p !in Above(p)
  {}

  /** Exclusive creation succeeds only if nothing is in the way, and then yields the larger tree. */
  lemma AddExtends(files: map<Path, Node>, p: Path, file: Node)
    requires AllFiles(files) && PrefixFree(files.Keys) && AddFile(TreeOf(files), p, file).Some?
    ensures p !in files && PrefixFree(files.Keys + {p})
    ensures AddFile(TreeOf(files), p, file).value == TreeOf(files[p := file])
  {
    hide Above, Ancestors;
    var tree := TreeOf(files);
    AncestorsOfOneMore(files.Keys, p);
    NotAboveItself(p);
    assert forall d :: d in Above(p) && d in tree ==> tree[d].Directory?;
    assert forall d :: d in files ==> d in tree;
    var more := files[p := file];
    assert more.Keys == files.Keys + {p};
    assert AddFile(tree, p, file).value.Keys == TreeOf(more).Keys;
  }

  lemma AddFailsOnlyOnConflict(files: map<Path, Node>, p: Path, file: Node, all: set<Path>)
    requires p !in files && files.Keys <= all && p in all
    requires AddFile(TreeOf(files), p, file).None?
    ensures !PrefixFree(all)
  {
    hide Above;
    var tree := TreeOf(files);
    if p in tree {
      var q :| q in files.Keys && p in Above(q);
      assert q in all;
      assert p in Ancestors(all);
    } else {
      var d :| d in Above(p) && d in tree && !tree[d].Directory?;
      assert d in files;
      assert d in Ancestors(all);
    }
  }

  /** What has been copied after k entries. */
  ghost predicate Copied(codec: Codec, entries: seq<Entry>, k: nat, files: map<Path, Node>)
    requires k <= |entries|
  {
    && AllFiles(files)
    && files.Keys == Names(entries[..k])
    && (forall i :: 0 <= i < k ==> CopiedEntry(codec, files, entries[i]))
  }

  ghost predicate CopiedEntry(codec: Codec, files: map<Path, Node>, e: Entry)
  {
    var p := Components(e.path);
    p in files && files[p].File? && codec.hexDigest(files[p].data) == e.sha256 && files[p].executable == e.executable
  }

  lemma NamesGrow(entries: seq<Entry>, k: nat)
    requires k < |entries|
    ensures Names(entries[..k + 1]) == Names(entries[..k]) + {Components(entries[k].path)}
    ensures Names(entries[..k + 1]) <= Names(entries)
  {
    hide Components;
    var more := entries[..k + 1];
    forall p | p in Names(entries[..k]) + {Components(entries[k].path)} ensures p in Names(more) {
      if p == Components(entries[k].path) {
        assert more[k] == entries[k];
      } else {
        var i :| 0 <= i < k && Components(entries[..k][i].path) == p;
        assert more[i] == entries[i];
      }
    }
    forall p | p in Names(more) ensures p in Names(entries[..k]) + {Components(entries[k].path)} && p in Names(entries) {
      var i :| 0 <= i < k + 1 && Components(more[i].path) == p;
      assert more[i] == entries[i];
      if i < k { assert entries[..k][i] == entries[i]; }
    }
  }

  lemma FreshName(entries: seq<Entry>, k: nat)
    requires ValidInventory(entries) && k < |entries|
    ensures Components(entries[k].path) !in Names(entries[..k])
  {
    hide GoodEntry;
    forall i | 0 <= i < k ensures Components(entries[i].path) != Components(entries[k].path) {
      if Components(entries[i].path) == Components(entries[k].path) {
        ComponentsAreInjective(entries[i].path, entries[k].path);
      }
    }
  }

  lemma ManifestIsNotListed(entries: seq<Entry>)
    requires ValidInventory(entries)
    ensures [MANIFEST] !in Names(entries)
  {
    hide Split;
    forall i | 0 <= i < |entries| ensures Components(entries[i].path) != [MANIFEST] {
      assert GoodEntry(entries[i]);
      JoinInvertsSplit(entries[i].path, '/');
    }
  }

  lemma CopyOneMore(codec: Codec, entries: seq<Entry>, k: nat, files: map<Path, Node>, file: Node)
    requires ValidInventory(entries) && k < |entries| && Copied(codec, entries, k, files)
    requires file.File? && codec.hexDigest(file.data) == entries[k].sha256 && file.executable == entries[k].executable
    ensures Copied(codec, entries, k + 1, files[Components(entries[k].path) := file])
  {
    hide Components, Names, ValidInventory;
    var p := Components(entries[k].path);
    var more := files[p := file];
    NamesGrow(entries, k);
    FreshName(entries, k);
    assert more.Keys == files.Keys + {p};
    forall i | 0 <= i < k ensures CopiedEntry(codec, more, entries[i]) {
      assert CopiedEntry(codec, files, entries[i]);
    }
  }

  /** The copy loop of `create_snapshots`. */
  method CopyEntries(codec: Codec, source: Tree, entries: seq<Entry>) returns (r: Option<Tree>, ghost files: map<Path, Node>)
    requires ValidInventory(entries)
    ensures r.Some? <==>
      (forall i :: 0 <= i < |entries| ==> Matches(codec, source, entries[i])) && PrefixFree(Names(entries))
    ensures r.Some? ==> Copied(codec, entries, |entries|, files) && r.value == TreeOf(files)
  {
    hide Components, Names, ReadFile, AddFile, TreeOf, ValidInventory, Copied, PrefixFree;
    var tree: Tree := map[];
    files := map[];
    NothingCopied(codec, entries, files);
    for k := 0 to |entries|
      invariant Copied(codec, entries, k, files) && PrefixFree(files.Keys) && tree == TreeOf(files)
      invariant forall i :: 0 <= i < k ==> Matches(codec, source, entries[i])
    {
      var p := Components(entries[k].path);
      var content := ReadFile(source, p);
      if content.None? || codec.hexDigest(content.value.0) != entries[k].sha256 || content.value.1 != entries[k].executable {
        assert !Matches(codec, source, entries[k]);
        return None, files;
      }
      var file := File(content.value.0, content.value.1);
      var next := AddFile(tree, p, file);
      CopiedKeys(codec, entries, k, files);
      if next.None? {
        NamesGrow(entries, k);
        FreshName(entries, k);
        AddFailsOnlyOnConflict(files, p, file, Names(entries));
        return None, files;
      }
      AddExtends(files, p, file);
      assert files[p := file].Keys == files.Keys + {p};
      CopyOneMore(codec, entries, k, files, file);
      tree := next.value;
      files := files[p := file];
    }
    CopiedKeys(codec, entries, |entries|, files);
    assert entries[..|entries|] == entries;
    r := Some(tree);
  }

  lemma NothingCopied(codec: Codec, entries: seq<Entry>, none: map<Path, Node>)
    requires none == map[]
    ensures Copied(codec, entries, 0, none) && PrefixFree(none.Keys) && TreeOf(none) == map[]
  {
    assert Names(entries[..0]) == {};
    assert Ancestors(none.Keys) == {};
    assert TreeOf(none).Keys == {};
  }

  lemma CopiedKeys(codec: Codec, entries: seq<Entry>, k: nat, files: map<Path, Node>)
    requires k <= |entries| && Copied(codec, entries, k, files)
    ensures AllFiles(files) && files.Keys == Names(entries[..k])
  {}

  /**
    `create_snapshots`: a plan is accepted exactly when its inventory is valid,
    every source file still matches it, and no path lies below another or below
    the manifest; the tree it yields verifies.
   */
  method CreateSnapshot(codec: Codec, source: Tree, entries: seq<Entry>) returns (r: Option<Tree>)
    requires DecodesItsOwn(codec)
    ensures r.Some? <==>
      && ValidInventory(entries)
      && (forall i :: 0 <= i < |entries| ==> Matches(codec, source, entries[i]))
      && PrefixFree(Names(entries) + {[MANIFEST]})
    ensures r.Some? ==> Verifies(codec, r.value) && WellFormed(r.value)
  {
    hide Components, Names, ReadFile, AddFile, TreeOf, ValidInventory, Copied, PrefixFree, Verifies, Matches, DecodesItsOwn;
    var byPath := EntriesByPath(entries);
    if byPath.None? { return None; }
    ghost var files;
    var copied;
    copied, files := CopyEntries(codec, source, entries);
    if copied.None? {
      SmallerIsPrefixFree(Names(entries), Names(entries) + {[MANIFEST]});
      return None;
    }
    var manifest := File(codec.encode(Manifest(1, entries)), false);
    var tree := AddFile(copied.value, [MANIFEST], manifest);
    CopiedKeys(codec, entries, |entries|, files);
    assert entries[..|entries|] == entries;
    ManifestIsNotListed(entries);
    if tree.None? {
      AddFailsOnlyOnConflict(files, [MANIFEST], manifest, Names(entries) + {[MANIFEST]});
      return None;
    }
    AddExtends(files, [MANIFEST], manifest);
    CreatedTreeVerifies(codec, entries, files, files[[MANIFEST] := manifest]);
    r := tree;
  }

  lemma SmallerIsPrefixFree(small: set<Path>, large: set<Path>)
    requires small <= large
    ensures PrefixFree(large) ==> PrefixFree(small)
  {
    hide Above;
    forall d | d in Ancestors(small) ensures d in Ancestors(large) {
      var p :| p in small && d in Above(p);
      assert p in large;
    }
  }

  lemma TreeOfFilesIsWellFormed(files: map<Path, Node>)
    requires PrefixFree(files.Keys)
    ensures WellFormed(TreeOf(files))
  {
    var tree := TreeOf(files);
    forall p, d | p in tree && d in Above(p) ensures d in tree && tree[d].Directory? {
      var q: Path;
      if p in files {
        q := p;
      } else {
        q :| q in files.Keys && p in Above(q);
        AboveIsTransitive(q, p, d);
      }
      assert d in Ancestors(files.Keys);
    }
  }

  lemma AboveIsTransitive(q: Path, p: Path, d: Path)
    requires p in Above(q) && d in Above(p)
    ensures d in Above(q)
  {
    var i :| 0 < i < |q| && q[..i] == p;
    var j :| 0 < j < |p| && p[..j] == d;
    assert q[..j] == d;
  }

  lemma CreatedTreeVerifies(codec: Codec, entries: seq<Entry>, files: map<Path, Node>, more: map<Path, Node>)
    requires DecodesItsOwn(codec) && ValidInventory(entries) && Copied(codec, entries, |entries|, files)
    requires [MANIFEST] !in files && PrefixFree(files.Keys + {[MANIFEST]})
    requires more == files[[MANIFEST] := File(codec.encode(Manifest(1, entries)), false)]
    ensures Verifies(codec, TreeOf(more)) && WellFormed(TreeOf(more))
  {
    hide Components, Names, ValidInventory, Above, Verifies, PrefixFree;
    var tree := TreeOf(more);
    assert more.Keys == files.Keys + {[MANIFEST]};
    assert entries[..|entries|] == entries;
    TreeOfFilesIsWellFormed(more);
    assert ReadManifest(codec, tree) == Some(Manifest(1, entries));
    CreatedTreeIsExact(codec, entries, files, more);
    VerificationIsExact(codec, tree);
  }

  lemma CreatedTreeIsExact(codec: Codec, entries: seq<Entry>, files: map<Path, Node>, more: map<Path, Node>)
    requires Copied(codec, entries, |entries|, files)
    requires [MANIFEST] !in files && PrefixFree(files.Keys + {[MANIFEST]})
    requires more == files[[MANIFEST] := File(codec.encode(Manifest(1, entries)), false)]
    ensures ExactTree(codec, TreeOf(more), entries)
  {
    hide Components, Names, Above, Ancestors;
    var tree := TreeOf(more);
    assert entries[..|entries|] == entries;
    assert more.Keys == files.Keys + {[MANIFEST]};
    AncestorsOfOneMore(files.Keys, [MANIFEST]);
    NothingAboveManifest();
    forall i | 0 <= i < |entries|
      ensures var p := Components(entries[i].path);
        p in tree && tree[p].File? && codec.hexDigest(tree[p].data) == entries[i].sha256
        && tree[p].executable == entries[i].executable
    {
      assert CopiedEntry(codec, files, entries[i]);
    }
  }

  lemma NothingAboveManifest()
    ensures Above([MANIFEST]) == {}
  {}
}
