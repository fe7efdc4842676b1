/**
 * The server side: `ModManager` answers the package list and the per-package
 * manifest from directory listings under `<base>/modpacks`, and
 * `download_file` serves a file of a package or reports that it is missing.
 * All three only read the file system, so they are functions of a directory
 * tree.
 */
module ModManager {
  import opened Wrappers
  import opened Names

  /**
   * A directory tree. A directory's entries are in the order `os.listdir`
   * returns them.
   */
  datatype Node = File | Dir(entries: seq<Entry>)
  datatype Entry = Entry(name: string, node: Node)

  /** `os.listdir` of a directory with these entries. */
  function Listing(entries: seq<Entry>): (r: seq<string>)
    ensures |r| == |entries|
    ensures forall i :: 0 <= i < |entries| ==> r[i] == entries[i].name
  {
    if entries == [] then [] else [entries[0].name] + Listing(entries[1..])
  }

  /** What the path component `name` resolves to inside a directory. */
  function Child(entries: seq<Entry>, name: string): (r: Option<Node>)
    ensures r.Some? <==> name in Listing(entries)
    ensures r.Some? ==> exists i :: 0 <= i < |entries| && entries[i] == Entry(name, r.value)
                                   && forall j :: 0 <= j < i ==> entries[j].name != name
  {
    if entries == [] then None
    else if entries[0].name == name then Some(entries[0].node)
    else Child(entries[1..], name)
  }

  /** Resolves a path, one component after the other, below `n`. */
  function Lookup(n: Node, path: seq<string>): Option<Node>
    decreases |path|
  {
    if path == [] then Some(n)
    else match n
      case File => None
      case Dir(entries) =>
        match Child(entries, path[0])
        case None => None
        case Some(c) => Lookup(c, path[1..])
  }

  /** `os.path.exists`. */
  predicate Exists(root: Node, path: seq<string>)
  {
    Lookup(root, path).Some?
  }

  /** `os.path.isdir`. */
  predicate IsDirectory(n: Option<Node>)
  {
    n.Some? && n.value.Dir?
  }

  /** A list comprehension `[x for x in xs if keep(x)]`. */
  function Filter(xs: seq<string>, keep: string -> bool): (r: seq<string>)
    ensures |r| <= |xs|
    ensures forall x :: x in r <==> x in xs && keep(x)
  {
    if xs == [] then []
    else (if keep(xs[0]) then [xs[0]] else []) + Filter(xs[1..], keep)
  }

  /** `get_modpack_list`: the entries of `modpacks` that are directories. */
  function GetModpackList(modpacks: seq<Entry>): (r: seq<string>)
    ensures |r| <= |modpacks|
    ensures forall d :: d in r <==> d in Listing(modpacks) && IsDirectory(Child(modpacks, d))
  {
    Filter(Listing(modpacks), d => IsDirectory(Child(modpacks, d)))
  }

  /** The response body of `GET /modpack/{name}`. */
  datatype Manifest = Manifest(name: string, mods: seq<string>, resourcepacks: seq<string>)

  /** `os.listdir` raises `NotADirectoryError` on a path that is a file. */
  datatype ServerError = NotADirectory(path: seq<string>)

  /**
   * One category of a manifest: the empty list when the directory does not
   * exist, otherwise its listing filtered by `keep`.
   */
  function ListCategory(modpacks: seq<Entry>, path: seq<string>, keep: string -> bool): (r: Result<seq<string>, ServerError>)
    ensures Lookup(Dir(modpacks), path).None? ==> r == Ok([])
    ensures r.Err? <==> Lookup(Dir(modpacks), path) == Some(File)
    ensures Lookup(Dir(modpacks), path).Some? && r.Ok? ==>
              forall f :: f in r.value <==> f in Listing(Lookup(Dir(modpacks), path).value.entries) && keep(f)
  {
    match Lookup(Dir(modpacks), path)
    case None => Ok([])
    case Some(File) => Err(NotADirectory(path))
    case Some(Dir(entries)) => Ok(Filter(Listing(entries), keep))
  }

  function ModsPath(name: string): seq<string> { [name, DirName(Mods)] }

  function PacksPath(name: string): seq<string> { [name, DirName(Resourcepacks)] }

  /**
   * `get_modpack_info`: the `.jar` files of `modpacks/{name}/mods` and every
   * entry of `modpacks/{name}/resourcepacks`; a category directory that does
   * not exist contributes the empty list.
   */
  function GetModpackInfo(modpacks: seq<Entry>, name: string): (r: Result<Manifest, ServerError>)
    ensures r.Ok? ==> r.value.name == name
    ensures r.Ok? ==> forall f :: f in r.value.mods ==> IsJar(f)
    ensures r.Ok? && IsDirectory(Lookup(Dir(modpacks), ModsPath(name))) ==>
              forall f :: f in r.value.mods <==>
                f in Listing(Lookup(Dir(modpacks), ModsPath(name)).value.entries) && IsJar(f)
    ensures r.Ok? && IsDirectory(Lookup(Dir(modpacks), PacksPath(name))) ==>
              r.value.resourcepacks == Listing(Lookup(Dir(modpacks), PacksPath(name)).value.entries)
    ensures r.Ok? && !Exists(Dir(modpacks), ModsPath(name)) ==> r.value.mods == []
    ensures r.Ok? && !Exists(Dir(modpacks), PacksPath(name)) ==> r.value.resourcepacks == []
    ensures r.Err? <==> (Lookup(Dir(modpacks), ModsPath(name)) == Some(File) ||
                         Lookup(Dir(modpacks), PacksPath(name)) == Some(File))
    ensures Child(modpacks, name).None? ==> r == Ok(Manifest(name, [], []))
  {
    match ListCategory(modpacks, ModsPath(name), IsJar)
    case Err(e) => Err(e)
    case Ok(mods) =>
      match Lookup(Dir(modpacks), PacksPath(name))
      case None => Ok(Manifest(name, mods, []))
      case Some(File) => Err(NotADirectory(PacksPath(name)))
      case Some(Dir(entries)) => Ok(Manifest(name, mods, Listing(entries)))
  }

  /** What `download_file` puts in the response body. */
  datatype Body = FileBody(path: seq<string>) | ErrorBody(message: string)

  datatype Response = Response(status: nat, body: Body)

  const Ok200: nat := 200
  const NotFound404: nat := 404
  const ServerError500: nat := 500
  const FileNotFound: string := "File not found"
  const InternalError: string := "Internal Server Error"

  /** `os.path.isfile`: the path names a regular file. */
  predicate IsRegularFile(root: Node, path: seq<string>)
  {
    Lookup(root, path) == Some(File)
  }

  /**
   * `download_file` as written. A path that does not exist gets the
   * `{"error": "File not found"}` object, which the framework sends with its
   * default status 200. A path that exists is handed to `FileResponse`,
   * which sends a regular file with status 200 but fails on a directory
   * ("is not a file"), so the framework answers 500.
   */
  function DownloadFile(modpacks: seq<Entry>, name: string, fileType: string, filename: string): (r: Response)
    ensures r.status == Ok200 <==> !IsDirectory(Lookup(Dir(modpacks), [name, fileType, filename]))
    ensures r.body.FileBody? <==> IsRegularFile(Dir(modpacks), [name, fileType, filename])
    ensures r.body.FileBody? ==> r.body.path == [name, fileType, filename]
    ensures !Exists(Dir(modpacks), [name, fileType, filename]) ==> r == Response(Ok200, ErrorBody(FileNotFound))
    ensures IsDirectory(Lookup(Dir(modpacks), [name, fileType, filename])) ==>
              r == Response(ServerError500, ErrorBody(InternalError))
  {
    var path := [name, fileType, filename];
    match Lookup(Dir(modpacks), path)
    case None => Response(Ok200, ErrorBody(FileNotFound))
    case Some(File) => Response(Ok200, FileBody(path))
    case Some(Dir(_)) => Response(ServerError500, ErrorBody(InternalError))
  }

  /**
   * `download_file` with the missing-file answer sent as status 404, the
   * answer the client's `status_code == 200` test expects. A directory
   * still fails in `FileResponse` with 500.
   */
  function DownloadFileFixed(modpacks: seq<Entry>, name: string, fileType: string, filename: string): (r: Response)
    ensures r.status == Ok200 <==> IsRegularFile(Dir(modpacks), [name, fileType, filename])
    ensures r.body.FileBody? <==> IsRegularFile(Dir(modpacks), [name, fileType, filename])
    ensures r.body.FileBody? ==> r.body.path == [name, fileType, filename]
    ensures !Exists(Dir(modpacks), [name, fileType, filename]) ==> r == Response(NotFound404, ErrorBody(FileNotFound))
    ensures IsDirectory(Lookup(Dir(modpacks), [name, fileType, filename])) ==>
              r == Response(ServerError500, ErrorBody(InternalError))
  {
    var path := [name, fileType, filename];
    match Lookup(Dir(modpacks), path)
    case None => Response(NotFound404, ErrorBody(FileNotFound))
    case Some(File) => Response(Ok200, FileBody(path))
    case Some(Dir(_)) => Response(ServerError500, ErrorBody(InternalError))
  }

  /** A name the manifest lists is a path that exists on the server. */
  lemma {:induction false} ListedNamesExist(modpacks: seq<Entry>, name: string, c: Category, f: string)
    requires GetModpackInfo(modpacks, name).Ok?
    requires var m := GetModpackInfo(modpacks, name).value;
             f in (if c == Mods then m.mods else m.resourcepacks)
    ensures Exists(Dir(modpacks), [name, DirName(c), f])
  {
    var path := [name, DirName(c)];
    var root := Dir(modpacks);
    var d := Lookup(root, path);
    assert d.Some? && d.value.Dir? by {
      if c == Mods {
        assert ModsPath(name) == path;
      } else {
        assert PacksPath(name) == path;
        assert f in Listing(d.value.entries);
      }
    }
    LookupAppend(root, path, f);
    assert f in Listing(d.value.entries);
  }

  /** Resolving one more component after a directory is a child lookup. */
  lemma {:induction false} LookupAppend(n: Node, path: seq<string>, f: string)
    requires IsDirectory(Lookup(n, path))
    ensures Lookup(n, path + [f]) == Child(Lookup(n, path).value.entries, f)
    decreases |path|
  {
    if path == [] {
      assert [] + [f] == [f];
    } else {
      assert (path + [f])[0] == path[0];
      assert (path + [f])[1..] == path[1..] + [f];
      match Child(n.entries, path[0])
      case Some(c) => LookupAppend(c, path[1..], f);
    }
  }
}
