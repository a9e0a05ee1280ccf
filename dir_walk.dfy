/**
 * FindSubdirectories (internal/yaml-parser/parser.go and pkg/yamlparser/parser.go): a walk of
 * the catalog directory that lists every directory in it, the root first, in the order
 * filepath.WalkDir visits them.
 *
 * The file system is an input: a tree of entries. A directory's listing is either readable,
 * and then holds its entries in the order the walk meets them (Go's os.ReadDir sorts them by
 * name), or unreadable with the error that reading it gives.
 *
 * The walk passes the root path on as it was given and names every entry below it with
 * filepath.Join, which cleans the joined path (`JoinPath`, `Clean`).
 */
module DirWalk {
  import opened Wrappers
  import Strings

  datatype Entry =
    | File(name: string)
    | Dir(name: string, listing: Listing)

  datatype Listing =
    | Readable(entries: seq<Entry>)
    | Unreadable(error: string)

  /** What the walk finds at its root: nothing it can stat, or an entry. */
  datatype Tree =
    | Missing(error: string)
    | Present(root: Entry)

  // ---- filepath.Join and filepath.Clean, for Unix paths ----

  /** An element that Clean keeps as it is: not empty, not `.` or `..`, and without a slash. */
  predicate Plain(element: string) {
    element != "" && element != "." && element != ".." && '/' !in element
  }

  /**
   * The elements left after Clean has read `elements` on top of `kept`: empty and `.` elements
   * vanish, `..` removes the element before it, and a `..` with nothing to remove is kept in a
   * relative path and dropped at the root.
   */
  function Resolve(rooted: bool, kept: seq<string>, elements: seq<string>): seq<string>
    decreases |elements|
  {
    if elements == [] then kept
    else
      var e := elements[0];
      var kept' :=
        if e == "" || e == "." then kept
        else if e == ".." then
          if |kept| > 0 && kept[|kept| - 1] != ".." then kept[..|kept| - 1]
          else if rooted then kept
          else kept + [".."]
        else kept + [e];
      Resolve(rooted, kept', elements[1..])
  }

  /** filepath.Clean: the shortest path naming the same file, by lexical processing alone. */
  function Clean(path: string): string
  {
    var rooted := |path| > 0 && path[0] == '/';
    var kept := Resolve(rooted, [], Strings.Split(path, '/'));
    if rooted then "/" + Strings.Join(kept, "/")
    else if kept == [] then "."
    else Strings.Join(kept, "/")
  }

  /** filepath.Join(dir, name): the two joined by a slash and cleaned; an empty `dir` is skipped. */
  function JoinPath(dir: string, name: string): string {
    if dir == "" then (if name == "" then "" else Clean(name))
    else Clean(dir + "/" + name)
  }

  /** How the walk names an entry inside a directory: filepath.Join, that is `JoinPath`. */
  type Joiner = (string, string) -> string

  /** The walk below `path`: the directories met, in pre-order, or the first error. */
  function Walk(join: Joiner, path: string, e: Entry): Result<seq<string>>
    decreases e
  {
    match e
    case File(_) => Ok([])
    case Dir(_, Unreadable(error)) => Err(error)
    case Dir(_, Readable(entries)) =>
      match WalkAll(join, path, entries)
      case Err(error) => Err(error)
      case Ok(below) => Ok([path] + below)
  }

  /** The walks below the entries of directory `path`, one after the other; the first error stops them. */
  function WalkAll(join: Joiner, path: string, entries: seq<Entry>): Result<seq<string>>
    decreases entries
  {
    if entries == [] then Ok([])
    else
      var last := entries[|entries| - 1];
      match WalkAll(join, path, entries[..|entries| - 1])
      case Err(error) => Err(error)
      case Ok(before) =>
        match Walk(join, join(path, last.name), last)
        case Err(error) => Err(error)
        case Ok(dirs) => Ok(before + dirs)
  }

  /** FindSubdirectories' result: the walk's directories, or its error in context. */
  function Subdirectories(root: string, tree: Tree): Result<seq<string>> {
    match tree
    case Missing(error) => Err("error walking directory " + root + ": " + error)
    case Present(e) =>
      match Walk(JoinPath, root, e)
      case Err(error) => Err("error walking directory " + root + ": " + error)
      case Ok(dirs) => Ok(dirs)
  }

  /** Plain elements pass through Resolve untouched. */
  lemma {:induction false} ResolvePlain(rooted: bool, kept: seq<string>, elements: seq<string>)
    requires forall i :: 0 <= i < |elements| ==> Plain(elements[i])
    ensures Resolve(rooted, kept, elements) == kept + elements
    decreases |elements|
  {
    if elements != [] {
      ResolvePlain(rooted, kept + [elements[0]], elements[1..]);
      assert kept + [elements[0]] + elements[1..] == kept + elements;
    }
  }

  /** A relative path made of plain elements is already clean. */
  lemma CleanOfPlain(elements: seq<string>)
    requires |elements| >= 1 && forall i :: 0 <= i < |elements| ==> Plain(elements[i])
    ensures Clean(Strings.Join(elements, "/")) == Strings.Join(elements, "/")
  {
    var path := Strings.Join(elements, "/");
    Strings.JoinStartsWithFirst(elements, "/");
    assert path[0] == elements[0][0] != '/';
    Strings.SplitJoin(elements, '/');
    ResolvePlain(false, [], elements);
    assert [] + elements == elements;
  }

  /**
   * Below a clean relative directory, joining a plain name only adds a slash and the name: the
   * paths the walk builds below such a root are the plain concatenations.
   */
  lemma JoinBelowCleanDir(parts: seq<string>, name: string)
    requires |parts| >= 1 && forall i :: 0 <= i < |parts| ==> Plain(parts[i])
    requires Plain(name)
    ensures JoinPath(Strings.Join(parts, "/"), name) == Strings.Join(parts, "/") + "/" + name
  {
    var dir := Strings.Join(parts, "/");
    var elements := parts + [name];
    assert dir != "" by {
      Strings.JoinStartsWithFirst(parts, "/");
    }
    assert Strings.Join(elements, "/") == dir + "/" + name by {
      Strings.JoinAppend(parts, name, "/");
    }
    PlainAppend(parts, name);
    CleanOfPlain(elements);
  }

  /** Resolving two runs of elements is resolving the first, then the second on top of it. */
  lemma {:induction false} ResolveAppend(rooted: bool, kept: seq<string>, a: seq<string>, b: seq<string>)
    ensures Resolve(rooted, kept, a + b) == Resolve(rooted, Resolve(rooted, kept, a), b)
    decreases |a|
  {
    if a != [] {
      assert (a + b)[0] == a[0] && (a + b)[1..] == a[1..] + b;
      var e := a[0];
      var kept' :=
        if e == "" || e == "." then kept
        else if e == ".." then
          if |kept| > 0 && kept[|kept| - 1] != ".." then kept[..|kept| - 1]
          else if rooted then kept
          else kept + [".."]
        else kept + [e];
      ResolveAppend(rooted, kept', a[1..], b);
    } else {
      assert a + b == b;
    }
  }

  /** Joining a part in front adds it and a slash. */
  lemma JoinCons(e: string, rest: seq<string>)
    requires |rest| >= 1
    ensures Strings.Join([e] + rest, "/") == e + "/" + Strings.Join(rest, "/")
  {
    assert ([e] + rest)[1..] == rest;
  }

  /** Empty and `.` elements leave Resolve's result alone. */
  lemma ResolveSkips(rooted: bool, kept: seq<string>, e: string, rest: seq<string>)
    requires e == "" || e == "."
    ensures Resolve(rooted, kept, [e] + rest) == Resolve(rooted, kept, rest)
  {
    assert ([e] + rest)[1..] == rest;
  }

  lemma PlainAppend(parts: seq<string>, name: string)
    requires forall i :: 0 <= i < |parts| ==> Plain(parts[i])
    requires Plain(name)
    ensures forall i :: 0 <= i < |parts + [name]| ==> Plain((parts + [name])[i])
  {
    forall i | 0 <= i < |parts + [name]| ensures Plain((parts + [name])[i]) {
      if i < |parts| { assert (parts + [name])[i] == parts[i]; }
    }
  }

  lemma NoSlashWithEmpty(parts: seq<string>, name: string)
    requires forall i :: 0 <= i < |parts| ==> Plain(parts[i])
    requires Plain(name)
    ensures forall i :: 0 <= i < |parts + ["", name]| ==> '/' !in (parts + ["", name])[i]
  {
    var elements := parts + ["", name];
    forall i | 0 <= i < |elements| ensures '/' !in elements[i] {
      if i < |parts| {
        assert elements[i] == parts[i];
      } else if i == |parts| {
        assert elements[i] == "";
      } else {
        assert elements[i] == name;
      }
    }
  }

  /** Clean of a relative path whose elements resolve to `kept`, not empty. */
  lemma CleanRelative(path: string, elements: seq<string>, kept: seq<string>)
    requires |path| > 0 && path[0] != '/'
    requires Strings.Split(path, '/') == elements && Resolve(false, [], elements) == kept && kept != []
    ensures Clean(path) == Strings.Join(kept, "/")
  {
  }

  /** A leading `./` on the root is dropped: `./catalog` gives its subdirectory `sub` the path `catalog/sub`. */
  lemma JoinDropsLeadingDot(parts: seq<string>, name: string)
    requires |parts| >= 1 && forall i :: 0 <= i < |parts| ==> Plain(parts[i])
    requires Plain(name)
    ensures JoinPath("./" + Strings.Join(parts, "/"), name) == Strings.Join(parts, "/") + "/" + name
  {
    var dir := Strings.Join(parts, "/");
    var rest := parts + [name];
    var path := "./" + dir + "/" + name;
    SplitWithLeadingDot(parts, name);
    assert Resolve(false, [], ["."] + rest) == rest by {
      PlainAppend(parts, name);
      ResolveSkips(false, [], ".", rest);
      ResolvePlain(false, [], rest);
      assert [] + rest == rest;
    }
    DotSlashPath(dir, name);
    CleanRelative(path, ["."] + rest, rest);
    assert Strings.Join(rest, "/") == dir + "/" + name by {
      Strings.JoinAppend(parts, name, "/");
    }
  }

  lemma SplitWithLeadingDot(parts: seq<string>, name: string)
    requires |parts| >= 1 && forall i :: 0 <= i < |parts| ==> Plain(parts[i])
    requires Plain(name)
    ensures Strings.Split("./" + Strings.Join(parts, "/") + "/" + name, '/') == ["."] + (parts + [name])
  {
    var dir := Strings.Join(parts, "/");
    var rest := parts + [name];
    var elements := ["."] + rest;
    assert Strings.Join(rest, "/") == dir + "/" + name by {
      Strings.JoinAppend(parts, name, "/");
    }
    assert Strings.Join(elements, "/") == "./" + dir + "/" + name by {
      JoinCons(".", rest);
      DotSlashPath(dir, name);
    }
    PlainAppend(parts, name);
    forall i | 0 <= i < |elements| ensures '/' !in elements[i] {
      if i > 0 { assert elements[i] == rest[i - 1]; }
    }
    Strings.SplitJoin(elements, '/');
  }

  lemma DotSlashPath(dir: string, name: string)
    ensures "./" + dir + "/" + name == "." + "/" + (dir + "/" + name)
    ensures "./" + dir + "/" + name == ("./" + dir) + "/" + name
    ensures "./" + dir != ""
  {
    assert "./" == "." + "/";
  }

  /** A trailing slash on the root is not doubled: `catalog/` gives `catalog/sub`. */
  lemma JoinDropsTrailingSlash(parts: seq<string>, name: string)
    requires |parts| >= 1 && forall i :: 0 <= i < |parts| ==> Plain(parts[i])
    requires Plain(name)
    ensures JoinPath(Strings.Join(parts, "/") + "/", name) == Strings.Join(parts, "/") + "/" + name
  {
    var dir := Strings.Join(parts, "/");
    var path := dir + "/" + "/" + name;
    SplitWithDoubleSlash(parts, name);
    ResolveWithEmpty(parts, name);
    assert dir != "" && path[0] == parts[0][0] by {
      Strings.JoinStartsWithFirst(parts, "/");
    }
    CleanRelative(path, parts + ["", name], parts + [name]);
    assert Strings.Join(parts + [name], "/") == dir + "/" + name by {
      Strings.JoinAppend(parts, name, "/");
    }
    assert (dir + "/") + "/" + name == path;
  }

  lemma SplitWithDoubleSlash(parts: seq<string>, name: string)
    requires |parts| >= 1 && forall i :: 0 <= i < |parts| ==> Plain(parts[i])
    requires Plain(name)
    ensures Strings.Split(Strings.Join(parts, "/") + "/" + "/" + name, '/') == parts + ["", name]
  {
    var elements := parts + ["", name];
    var dir := Strings.Join(parts, "/");
    assert Strings.Join(parts + [""], "/") == dir + "/" by {
      Strings.JoinAppend(parts, "", "/");
      assert dir + "/" + "" == dir + "/";
    }
    assert Strings.Join(elements, "/") == dir + "/" + "/" + name by {
      Strings.JoinAppend(parts + [""], name, "/");
      assert parts + [""] + [name] == elements;
    }
    NoSlashWithEmpty(parts, name);
    Strings.SplitJoin(elements, '/');
  }

  lemma ResolveWithEmpty(parts: seq<string>, name: string)
    requires forall i :: 0 <= i < |parts| ==> Plain(parts[i])
    requires Plain(name)
    ensures Resolve(false, [], parts + ["", name]) == parts + [name]
  {
    ResolveAppend(false, [], parts, ["", name]);
    ResolvePlain(false, [], parts);
    ResolveSkips(false, parts, "", [name]);
    ResolvePlain(false, parts, [name]);
    assert [] + parts == parts && ["", name] == [""] + [name];
  }

  /** Below `/`, a child's path has a single slash. */
  lemma JoinBelowRoot(name: string)
    requires Plain(name)
    ensures JoinPath("/", name) == "/" + name
  {
    var elements := ["", "", name];
    var path := "/" + "/" + name;
    assert Strings.Join(elements, "/") == path by {
      JoinCons("", ["", name]);
      JoinCons("", [name]);
      assert ["", "", name] == [""] + ["", name] && ["", name] == [""] + [name];
    }
    assert Strings.Split(path, '/') == elements by {
      Strings.SplitJoin(elements, '/');
    }
    assert Resolve(true, [], elements) == [name] by {
      ResolveSkips(true, [], "", ["", name]);
      ResolveSkips(true, [], "", [name]);
      ResolvePlain(true, [], [name]);
      assert ["", "", name] == [""] + ["", name] && ["", name] == [""] + [name];
    }
    assert path[0] == '/';
  }

  // ---- A reference: every directory of the tree, and whether all of them can be read ----

  /** Every directory path of the tree under `path`, in pre-order, readable or not. */
  function AllDirs(join: Joiner, path: string, e: Entry): seq<string>
    decreases e
  {
    match e
    case File(_) => []
    case Dir(_, Unreadable(_)) => [path]
    case Dir(_, Readable(entries)) => [path] + AllDirsIn(join, path, entries)
  }

  function AllDirsIn(join: Joiner, path: string, entries: seq<Entry>): seq<string>
    decreases entries
  {
    if entries == [] then []
    else
      var last := entries[|entries| - 1];
      AllDirsIn(join, path, entries[..|entries| - 1]) + AllDirs(join, join(path, last.name), last)
  }

  predicate AllReadable(e: Entry)
    decreases e
  {
    match e
    case File(_) => true
    case Dir(_, Unreadable(_)) => false
    case Dir(_, Readable(entries)) => AllReadableIn(entries)
  }

  predicate AllReadableIn(entries: seq<Entry>)
    decreases entries
  {
    entries == [] || (AllReadableIn(entries[..|entries| - 1]) && AllReadable(entries[|entries| - 1]))
  }

  /**
   * The walk succeeds exactly when every directory can be read, and then lists every directory
   * of the tree and nothing else: files never appear.
   */
  lemma {:induction false} WalkFindsAllDirs(join: Joiner, path: string, e: Entry)
    ensures Walk(join, path, e).Ok? <==> AllReadable(e)
    ensures Walk(join, path, e).Ok? ==> Walk(join, path, e).value == AllDirs(join, path, e)
    decreases e
  {
    match e
    case File(_) =>
    case Dir(_, Unreadable(_)) =>
    case Dir(_, Readable(entries)) =>
      WalkAllFindsAllDirs(join, path, entries);
  }

  lemma {:induction false} WalkAllFindsAllDirs(join: Joiner, path: string, entries: seq<Entry>)
    ensures WalkAll(join, path, entries).Ok? <==> AllReadableIn(entries)
    ensures WalkAll(join, path, entries).Ok? ==> WalkAll(join, path, entries).value == AllDirsIn(join, path, entries)
    decreases entries
  {
    if entries != [] {
      var last := entries[|entries| - 1];
      WalkAllFindsAllDirs(join, path, entries[..|entries| - 1]);
      WalkFindsAllDirs(join, join(path, last.name), last);
    }
  }

  /**
   * FindSubdirectories' walk succeeds exactly when every directory of the tree can be read, and
   * then lists every directory, each named by filepath.Join of its parent's path and its name.
   */
  lemma SubdirectoriesFindsAllDirs(root: string, e: Entry)
    ensures Subdirectories(root, Present(e)).Ok? <==> AllReadable(e)
    ensures Subdirectories(root, Present(e)).Ok? ==> Subdirectories(root, Present(e)).value == AllDirs(JoinPath, root, e)
  {
    WalkFindsAllDirs(JoinPath, root, e);
  }

  /** A directory root comes first in the listing. */
  lemma RootFirst(root: string, name: string, listing: Listing)
    requires Subdirectories(root, Present(Dir(name, listing))).Ok?
    ensures var dirs := Subdirectories(root, Present(Dir(name, listing))).value;
      |dirs| > 0 && dirs[0] == root
  {
  }

  /** A file as root has no directories. */
  lemma FileRootHasNoDirs(root: string, name: string)
    ensures Subdirectories(root, Present(File(name))) == Ok([])
  {
  }

  /** Every error names the root it walked from. */
  lemma ErrorNamesRoot(root: string, tree: Tree)
    requires Subdirectories(root, tree).Err?
    ensures HasErrorPrefix(Subdirectories(root, tree).error, "error walking directory " + root + ": ")
  {
  }

  predicate HasErrorPrefix(message: string, prefix: string) {
    |prefix| <= |message| && message[..|prefix|] == prefix
  }

  // ---- The source's method ----

  /** FindSubdirectories (internal/yaml-parser/parser.go:14-32): collect directories while walking; the first error aborts. */
  method FindSubdirectories(root: string, tree: Tree) returns (result: Result<seq<string>>)
    ensures result == Subdirectories(root, tree)
  {
    match tree
    case Missing(error) =>
      // the walk function is called once, with the error of stat-ing the root
      return Err("error walking directory " + root + ": " + error);
    case Present(e) =>
      var dirs, error := Visit(JoinPath, root, e, []);
      match error
      case Some(message) =>
        return Err("error walking directory " + root + ": " + message);
      case None =>
        assert Walk(JoinPath, root, e).Ok?;
        assert dirs == [] + Walk(JoinPath, root, e).value;
        assert [] + Walk(JoinPath, root, e).value == Walk(JoinPath, root, e).value;
        return Ok(dirs);
  }

  /** The walk of one entry: the callback appends a directory's path before its listing is read. */
  method Visit(join: Joiner, path: string, e: Entry, dirs: seq<string>) returns (dirs': seq<string>, error: Option<string>)
    ensures Walk(join, path, e).Err? <==> error.Some?
    ensures Walk(join, path, e).Err? ==> error.value == Walk(join, path, e).error
    ensures Walk(join, path, e).Ok? ==> dirs' == dirs + Walk(join, path, e).value
    decreases e, 2
  {
    match e
    case File(_) =>
      return dirs, None;
    case Dir(_, listing) =>
      dirs' := dirs + [path];
      match listing
      case Unreadable(message) =>
        return dirs', Some(message);
      case Readable(entries) =>
        dirs', error := VisitEntries(join, path, entries, e, dirs');
        if error.None? {
          assert dirs' == dirs + ([path] + WalkAll(join, path, entries).value);
        }
  }

  /** The walks below the entries of directory `path`, one after the other; the first error stops them. */
  method VisitEntries(join: Joiner, path: string, entries: seq<Entry>, ghost parent: Entry, dirs: seq<string>)
    returns (dirs': seq<string>, error: Option<string>)
    requires parent.Dir? && parent.listing == Readable(entries)
    ensures WalkAll(join, path, entries).Err? <==> error.Some?
    ensures WalkAll(join, path, entries).Err? ==> error.value == WalkAll(join, path, entries).error
    ensures WalkAll(join, path, entries).Ok? ==> dirs' == dirs + WalkAll(join, path, entries).value
    decreases parent, 1
  {
    dirs' := dirs;
    var i := 0;
    while i < |entries|
      invariant i <= |entries|
      invariant WalkAll(join, path, entries[..i]).Ok?
      invariant dirs' == dirs + WalkAll(join, path, entries[..i]).value
    {
      var message;
      dirs', message := VisitChild(join, path, entries, i, parent, dirs, dirs');
      if message.Some? {
        PrefixErrorStops(join, path, entries, i + 1);
        return dirs', message;
      }
      i := i + 1;
    }
    assert entries[..i] == entries;
    return dirs', None;
  }

  /** The walk below entry `i` of directory `path`, at the path filepath.Join gives it. */
  method VisitChild(join: Joiner, path: string, entries: seq<Entry>, i: nat, ghost parent: Entry, ghost dirs: seq<string>, current: seq<string>)
    returns (dirs': seq<string>, error: Option<string>)
    requires parent.Dir? && parent.listing == Readable(entries)
    requires i < |entries| && WalkAll(join, path, entries[..i]).Ok?
    requires current == dirs + WalkAll(join, path, entries[..i]).value
    ensures WalkAll(join, path, entries[..i + 1]).Err? <==> error.Some?
    ensures WalkAll(join, path, entries[..i + 1]).Err? ==> error.value == WalkAll(join, path, entries[..i + 1]).error
    ensures WalkAll(join, path, entries[..i + 1]).Ok? ==> dirs' == dirs + WalkAll(join, path, entries[..i + 1]).value
    decreases parent, 0
  {
    var child := entries[i];
    var childPath := join(path, child.name);
    WalkAllStep(join, path, entries, i);
    dirs', error := Visit(join, childPath, child, current);
  }

  /** The walk of the first `i + 1` entries is that of the first `i`, then that of entry `i`. */
  lemma WalkAllStep(join: Joiner, path: string, entries: seq<Entry>, i: nat)
    requires i < |entries| && WalkAll(join, path, entries[..i]).Ok?
    ensures var child := Walk(join, join(path, entries[i].name), entries[i]);
      && (child.Err? ==> WalkAll(join, path, entries[..i + 1]) == Err(child.error))
      && (child.Ok? ==> WalkAll(join, path, entries[..i + 1]) == Ok(WalkAll(join, path, entries[..i]).value + child.value))
  {
    assert entries[..i + 1][..i] == entries[..i];
  }

  /** An error in the first `n` entries is the error of all of them. */
  lemma {:induction false} PrefixErrorStops(join: Joiner, path: string, entries: seq<Entry>, n: nat)
    requires n <= |entries| && WalkAll(join, path, entries[..n]).Err?
    ensures WalkAll(join, path, entries) == WalkAll(join, path, entries[..n])
    decreases |entries| - n
  {
    if n < |entries| {
      assert entries[..n + 1][..n] == entries[..n];
      PrefixErrorStops(join, path, entries, n + 1);
    } else {
      assert entries[..n] == entries;
    }
  }
}
