/**
 * The dependency resolver (`getDependencies` and `checkFileName` in
 * utils/actions.js): a depth-first walk of a directory that records, for
 * every entry named after a requested slide, a key `"<slide>: <label>"`
 * mapped to the entry's path, where the label is the last segment of the
 * directory being walked. In a directory called `app` the label is `html`
 * and the slide's templates and controllers are recorded as well.
 */
module Resolver {
  import opened Wrappers
  import opened FileTree
  import opened OrderedMaps
  import opened Text
  import opened Discovery

  /** The key `"<slide>: <category>"` of the dependency object. */
  datatype DepKey = DepKey(slide: string, category: string)

  /** `pathDependencies`: keys in insertion order, each mapped to a relative path. */
  type DepMap = OrderedMap<DepKey, Path>

  /** `slidesForClone.find(slideId => slideId === name)`. */
  function FindSlide(slidesForClone: seq<string>, name: string): (r: Option<string>)
    ensures r.Some? <==> name in slidesForClone
    ensures r.Some? ==> r.value == name
  {
    if |slidesForClone| == 0 then None
    else if slidesForClone[0] == name then Some(slidesForClone[0])
    else FindSlide(slidesForClone[1..], name)
  }

  /**
   * `checkFileName`: the requested slide id equal to the entry name's text
   * before its first `.`, if there is one.
   */
  function CheckFileName(folderOrFile: string, slidesForClone: seq<string>): (r: Option<string>)
    ensures r.Some? <==> Split(folderOrFile, '.')[0] in slidesForClone
    ensures r.Some? ==> r.value in slidesForClone && '.' !in r.value && r.value <= folderOrFile
    ensures r.Some? && |r.value| < |folderOrFile| ==> folderOrFile[|r.value|] == '.'
  {
    FindSlide(slidesForClone, Split(folderOrFile, '.')[0])
  }

  /** JavaScript truthiness of `checkFileName`'s result: `undefined` and `""` are falsy. */
  predicate Matched(m: Option<string>)
  {
    m.Some? && m.value != ""
  }

  /** The key `"<slide>: <kind><j + 1>"` of the j-th (0-based) discovered path. */
  function IndexedKey(slideId: string, kind: string, j: nat): (k: DepKey)
    ensures k.slide == slideId && kind <= k.category && |k.category| > |kind|
  {
    DepKey(slideId, kind + NatToString(j + 1))
  }

  /** `paths.forEach((p, index) => deps[`${slideId}: ${kind}${index + 1}`] = p)` from index `i` on. */
  function PutEach(acc: DepMap, slideId: string, kind: string, paths: seq<Path>, i: nat): (r: DepMap)
    requires i <= |paths|
    ensures forall k :: k in Keys(acc) ==> k in Keys(r)
    ensures forall k :: k in Keys(r) ==> k in Keys(acc) || (k.slide == slideId && kind <= k.category)
    ensures forall k: DepKey :: k.slide != slideId || !(kind <= k.category) ==> Get(r, k) == Get(acc, k)
    ensures forall b :: b in r ==> b in acc || b.value in paths[i..]
    decreases |paths| - i
  {
    if i == |paths| then acc
    else
      var key := IndexedKey(slideId, kind, i);
      assert kind <= key.category;
      assert paths[i + 1..] == paths[i..][1..];
      PutKeys(acc, key, paths[i]);
      PutEach(Put(acc, key, paths[i]), slideId, kind, paths, i + 1)
  }

  /**
   * What one matched entry adds: under `"<slide>: <label>"` its path; in an
   * `app` directory the label is `html` and the discovered templates and
   * controllers come first, as `templatesN` and `controllersN`.
   */
  function Record(root: Entry, thisDir: Path, relativePath: Path, slideId: string, acc: DepMap): Result<DepMap, Path>
  {
    var key := Last(thisDir);
    if key == "app" then
      match Discover(root, thisDir, relativePath, slideId)
      case Err(p) => Err(p)
      case Ok(found) =>
        var withTemplates := PutEach(acc, slideId, "templates", found.templates, 0);
        var withControllers := PutEach(withTemplates, slideId, "controllers", found.controllers, 0);
        Ok(Put(withControllers, DepKey(slideId, "html"), relativePath))
    else Ok(Put(acc, DepKey(slideId, key), relativePath))
  }

  /** The body of the `forEach` in `getDependencies` for one entry of `thisDir`. */
  function Step(root: Entry, slidesForClone: seq<string>, thisDir: Path, e: Entry, acc: DepMap): Result<DepMap, Path>
    decreases Size(e), 0
  {
    var currentFileName := CheckFileName(e.name, slidesForClone);
    var relativePath := thisDir + [e.name];
    if !Matched(currentFileName) && e.Dir? then
      match Scan(root, slidesForClone, relativePath, e.children, [])
      case Err(p) => Err(p)
      case Ok(sub) => Ok(Assign(acc, sub))
    else if Matched(currentFileName) then Record(root, thisDir, relativePath, currentFileName.value, acc)
    else Ok(acc)
  }

  /** The entries of `thisDir` processed in listing order into `acc`; a read error stops the walk. */
  function Scan(root: Entry, slidesForClone: seq<string>, thisDir: Path, entries: seq<Entry>, acc: DepMap): Result<DepMap, Path>
    decreases SizeAll(entries), 1
  {
    if |entries| == 0 then Ok(acc)
    else match Step(root, slidesForClone, thisDir, entries[0], acc)
      case Err(p) => Err(p)
      case Ok(next) => Scan(root, slidesForClone, thisDir, entries[1..], next)
  }

  /**
   * The outcome of `getDependencies(slidesForClone, thisDir)`: `undefined`
   * when `thisDir` does not exist, an exception (carrying the path that
   * could not be listed or read) or the dependency object.
   */
  datatype Resolution = Absent | Thrown(path: Path) | Resolved(deps: DepMap)

  function Dependencies(root: Entry, slidesForClone: seq<string>, thisDir: Path): (r: Resolution)
    ensures r.Absent? <==> Lookup(root, thisDir).None?
  {
    match Lookup(root, thisDir)
    case None => Absent
    case Some(File(_, _)) => Thrown(thisDir)
    case Some(Dir(_, children)) =>
      match Scan(root, slidesForClone, thisDir, children, [])
      case Err(p) => Thrown(p)
      case Ok(deps) => Resolved(deps)
  }

  lemma SizeAllAt(es: seq<Entry>, i: nat)
    requires i < |es|
    ensures Size(es[i]) <= SizeAll(es) && SizeAll(es[i..]) <= SizeAll(es)
    decreases i
  {
    if i > 0 {
      SizeAllAt(es[1..], i - 1);
      assert es[1..][i - 1..] == es[i..];
    }
  }

  /** The `forEach` over the indexed paths of one kind. */
  method AddIndexed(pathDependencies: DepMap, currentFileName: string, dependency: string, paths: seq<Path>)
    returns (r: DepMap)
    ensures r == PutEach(pathDependencies, currentFileName, dependency, paths, 0)
  {
    r := pathDependencies;
    for index := 0 to |paths|
      invariant PutEach(r, currentFileName, dependency, paths, index) == PutEach(pathDependencies, currentFileName, dependency, paths, 0)
    {
      r := Put(r, IndexedKey(currentFileName, dependency, index), paths[index]);
    }
  }

  /** The walk of one directory's listing (the `forEach` in `getDependencies`). */
  method ScanDirectory(root: Entry, slidesForClone: seq<string>, thisDir: Path, subFoldersOrFiles: seq<Entry>)
    returns (r: Result<DepMap, Path>)
    ensures r == Scan(root, slidesForClone, thisDir, subFoldersOrFiles, [])
    decreases SizeAll(subFoldersOrFiles)
  {
    var pathDependencies: DepMap := [];
    for i := 0 to |subFoldersOrFiles|
      invariant Scan(root, slidesForClone, thisDir, subFoldersOrFiles[i..], pathDependencies)
                == Scan(root, slidesForClone, thisDir, subFoldersOrFiles, [])
    {
      var folderOrFile := subFoldersOrFiles[i];
      assert subFoldersOrFiles[i..][1..] == subFoldersOrFiles[i + 1..];
      var relativePath := thisDir + [folderOrFile.name];
      var currentFileName := CheckFileName(folderOrFile.name, slidesForClone);
      if !Matched(currentFileName) && folderOrFile.Dir? {
        SizeAllAt(subFoldersOrFiles, i);
        var sub := ScanDirectory(root, slidesForClone, relativePath, folderOrFile.children);
        if sub.Err? {
          return Err(sub.error);
        }
        pathDependencies := Assign(pathDependencies, sub.value);
      }
      if Matched(currentFileName) {
        var key := Last(thisDir);
        if key == "app" {
          key := "html";
          var templatesAndControllers := GetTemplatesAndControllers(root, thisDir, relativePath, currentFileName.value);
          if templatesAndControllers.Err? {
            return Err(templatesAndControllers.error);
          }
          pathDependencies := AddIndexed(pathDependencies, currentFileName.value, "templates", templatesAndControllers.value.templates);
          pathDependencies := AddIndexed(pathDependencies, currentFileName.value, "controllers", templatesAndControllers.value.controllers);
        }
        pathDependencies := Put(pathDependencies, DepKey(currentFileName.value, key), relativePath);
      }
    }
    r := Ok(pathDependencies);
  }

  method GetDependencies(root: Entry, slidesForClone: seq<string>, thisDir: Path) returns (r: Resolution)
    ensures r == Dependencies(root, slidesForClone, thisDir)
  {
    var here := Lookup(root, thisDir);
    if here.None? {
      return Absent;
    }
    if here.value.File? {
      return Thrown(thisDir);
    }
    var scanned := ScanDirectory(root, slidesForClone, thisDir, here.value.children);
    r := if scanned.Err? then Thrown(scanned.error) else Resolved(scanned.value);
  }
}
