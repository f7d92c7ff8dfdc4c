/**
 * Template and controller discovery for a slide's markup file in an `app`
 * directory (`getTemplatesAndControllers`, `getTemplates`,
 * `getTemplateHtml`, `getControllers` in utils/actions.js).
 *
 * The script collects names into a plain object keyed by name
 * (`templatesObj[template] = path`) and then reads its values; the methods
 * below do the same with an insertion-ordered map, and their postconditions
 * tie the outcome to the specification functions `TemplatePaths`,
 * `ReadTemplates` and `ControllerPaths`.
 */
module Discovery {
  import opened Wrappers
  import opened FileTree
  import opened Lists
  import opened OrderedMaps

  /** Shared templates assumed present at the destination already. */
  const CommonTemplates: set<string> := {"layout", "common-components"}

  function TemplatePath(thisDir: Path, name: string): Path
  {
    thisDir + ["templates", name + ".html"]
  }

  function ControllerPath(thisDir: Path, name: string): Path
  {
    thisDir + ["controllers", name + ".js"]
  }

  /** One path per name, in the order of the names. */
  function TemplatePathsOf(thisDir: Path, names: seq<string>): (r: seq<Path>)
    ensures |r| == |names|
    ensures forall i :: 0 <= i < |names| ==> r[i] == TemplatePath(thisDir, names[i])
  {
    if |names| == 0 then [] else [TemplatePath(thisDir, names[0])] + TemplatePathsOf(thisDir, names[1..])
  }

  function ControllerPathsOf(thisDir: Path, names: seq<string>): (r: seq<Path>)
    ensures |r| == |names|
    ensures forall i :: 0 <= i < |names| ==> r[i] == ControllerPath(thisDir, names[i])
  {
    if |names| == 0 then [] else [ControllerPath(thisDir, names[0])] + ControllerPathsOf(thisDir, names[1..])
  }

  /** Template names kept by `getTemplates`: common ones dropped, repeats collapsed. */
  function TemplateNames(found: seq<string>): (r: seq<string>)
    ensures NoDuplicates(r)
    ensures forall n :: n in r <==> n in found && n !in CommonTemplates
  {
    Dedup(Without(found, CommonTemplates))
  }

  /** Controller names kept by `getControllers`: the slide itself dropped, repeats collapsed. */
  function ControllerNames(found: seq<string>, slideId: string): (r: seq<string>)
    ensures NoDuplicates(r)
    ensures forall n :: n in r <==> n in found && n != slideId
  {
    Dedup(Without(found, {slideId}))
  }

  function TemplatePaths(thisDir: Path, found: seq<string>): seq<Path>
  {
    TemplatePathsOf(thisDir, TemplateNames(found))
  }

  function ControllerPaths(thisDir: Path, found: seq<string>, slideId: string): seq<Path>
  {
    ControllerPathsOf(thisDir, ControllerNames(found, slideId))
  }

  /** `readFileSync` of a markup file: only a file can be read. */
  function ReadFile(root: Entry, p: Path): Option<Markup>
  {
    match Lookup(root, p)
    case Some(File(_, markup)) => Some(markup)
    case _ => None
  }

  /**
   * `getTemplateHtml`: the markup of every template file appended to `acc`
   * in order; the first path that cannot be read aborts with that path.
   */
  function ReadTemplates(root: Entry, paths: seq<Path>, acc: Markup): Result<Markup, Path>
  {
    if |paths| == 0 then Ok(acc)
    else match ReadFile(root, paths[0])
      case None => Err(paths[0])
      case Some(m) => ReadTemplates(root, paths[1..], Concat(acc, m))
  }

  datatype Discovered = Discovered(templates: seq<Path>, controllers: seq<Path>)

  /** `getTemplatesAndControllers` for the markup file `slidePath` in `thisDir`. */
  function Discover(root: Entry, thisDir: Path, slidePath: Path, slideId: string): Result<Discovered, Path>
  {
    match ReadFile(root, slidePath)
    case None => Err(slidePath)
    case Some(slide) =>
      var templates := TemplatePaths(thisDir, slide.templateNames);
      match ReadTemplates(root, templates, EmptyMarkup)
      case Err(p) => Err(p)
      case Ok(templatesHtml) =>
        Ok(Discovered(templates, ControllerPaths(thisDir, Concat(slide, templatesHtml).controllerNames, slideId)))
  }

  lemma TemplatePathInjective(thisDir: Path, a: string, b: string)
    requires TemplatePath(thisDir, a) == TemplatePath(thisDir, b)
    ensures a == b
  {
    assert TemplatePath(thisDir, a)[|thisDir| + 1] == a + ".html";
    assert (a + ".html")[..|a|] == a && (b + ".html")[..|b|] == b;
  }

  lemma ControllerPathInjective(thisDir: Path, a: string, b: string)
    requires ControllerPath(thisDir, a) == ControllerPath(thisDir, b)
    ensures a == b
  {
    assert ControllerPath(thisDir, a)[|thisDir| + 1] == a + ".js";
    assert (a + ".js")[..|a|] == a && (b + ".js")[..|b|] == b;
  }

  /**
   * A template name found in the markup yields `thisDir/templates/<name>.html`
   * exactly when it is not a common template; in particular `layout` and
   * `common-components` never do.
   */
  lemma TemplatePathsExactly(thisDir: Path, found: seq<string>, name: string)
    ensures TemplatePath(thisDir, name) in TemplatePaths(thisDir, found)
            <==> name in found && name !in CommonTemplates
  {
    var names := TemplateNames(found);
    if TemplatePath(thisDir, name) in TemplatePaths(thisDir, found) {
      var i :| 0 <= i < |names| && TemplatePaths(thisDir, found)[i] == TemplatePath(thisDir, name);
      TemplatePathInjective(thisDir, names[i], name);
    }
    if name in found && name !in CommonTemplates {
      var i :| 0 <= i < |names| && names[i] == name;
      assert TemplatePaths(thisDir, found)[i] == TemplatePath(thisDir, name);
    }
  }

  /**
   * A controller name found in the combined markup yields
   * `thisDir/controllers/<name>.js` exactly when it is not the slide's own id.
   */
  lemma ControllerPathsExactly(thisDir: Path, found: seq<string>, slideId: string, name: string)
    ensures ControllerPath(thisDir, name) in ControllerPaths(thisDir, found, slideId)
            <==> name in found && name != slideId
  {
    var names := ControllerNames(found, slideId);
    if ControllerPath(thisDir, name) in ControllerPaths(thisDir, found, slideId) {
      var i :| 0 <= i < |names| && ControllerPaths(thisDir, found, slideId)[i] == ControllerPath(thisDir, name);
      ControllerPathInjective(thisDir, names[i], name);
    }
    if name in found && name != slideId {
      var i :| 0 <= i < |names| && names[i] == name;
      assert ControllerPaths(thisDir, found, slideId)[i] == ControllerPath(thisDir, name);
    }
  }

  /** Templates come once each, in the order their names first appear in the markup. */
  lemma TemplateNamesFirstSeen(found: seq<string>)
    ensures NoDuplicates(TemplateNames(found))
    ensures forall n :: n in TemplateNames(found) ==> n in found
    ensures forall i, j :: 0 <= i < j < |TemplateNames(found)| ==>
              IndexOf(found, TemplateNames(found)[i]) < IndexOf(found, TemplateNames(found)[j])
  {
    var w := Without(found, CommonTemplates);
    var d := Dedup(w);
    DedupFirstSeen(w);
    forall i, j | 0 <= i < j < |d| ensures IndexOf(found, d[i]) < IndexOf(found, d[j]) {
      WithoutKeepsOrder(found, CommonTemplates, d[i], d[j]);
    }
  }

  /** Controllers come once each, in the order their names first appear in the combined markup. */
  lemma ControllerNamesFirstSeen(found: seq<string>, slideId: string)
    ensures NoDuplicates(ControllerNames(found, slideId))
    ensures forall n :: n in ControllerNames(found, slideId) ==> n in found
    ensures forall i, j :: 0 <= i < j < |ControllerNames(found, slideId)| ==>
              IndexOf(found, ControllerNames(found, slideId)[i]) < IndexOf(found, ControllerNames(found, slideId)[j])
  {
    var w := Without(found, {slideId});
    var d := Dedup(w);
    DedupFirstSeen(w);
    forall i, j | 0 <= i < j < |d| ensures IndexOf(found, d[i]) < IndexOf(found, d[j]) {
      WithoutKeepsOrder(found, {slideId}, d[i], d[j]);
    }
  }

  /** Reading the templates succeeds exactly when every one of them is a readable file. */
  lemma {:induction false} ReadTemplatesOk(root: Entry, paths: seq<Path>, acc: Markup)
    ensures ReadTemplates(root, paths, acc).Ok? <==> forall p :: p in paths ==> ReadFile(root, p).Some?
    ensures ReadTemplates(root, paths, acc).Err? ==>
              ReadTemplates(root, paths, acc).error in paths && ReadFile(root, ReadTemplates(root, paths, acc).error).None?
  {
    if |paths| > 0 {
      if ReadFile(root, paths[0]).Some? {
        ReadTemplatesOk(root, paths[1..], Concat(acc, ReadFile(root, paths[0]).value));
        assert paths == [paths[0]] + paths[1..];
      }
    }
  }

  /** The combined markup holds the controllers already in `acc` and those of every template read. */
  lemma {:induction false} ReadTemplatesControllers(root: Entry, paths: seq<Path>, acc: Markup, name: string)
    requires ReadTemplates(root, paths, acc).Ok?
    ensures name in ReadTemplates(root, paths, acc).value.controllerNames <==>
              name in acc.controllerNames ||
              exists i :: 0 <= i < |paths| && ReadFile(root, paths[i]).Some? && name in ReadFile(root, paths[i]).value.controllerNames
  {
    if |paths| > 0 {
      var m := ReadFile(root, paths[0]).value;
      ReadTemplatesControllers(root, paths[1..], Concat(acc, m), name);
      if exists i :: 0 <= i < |paths| && ReadFile(root, paths[i]).Some? && name in ReadFile(root, paths[i]).value.controllerNames {
        var i :| 0 <= i < |paths| && ReadFile(root, paths[i]).Some? && name in ReadFile(root, paths[i]).value.controllerNames;
        if i > 0 {
          assert paths[1..][i - 1] == paths[i];
        }
      }
      if exists i :: 0 <= i < |paths| - 1 && ReadFile(root, paths[1..][i]).Some? && name in ReadFile(root, paths[1..][i]).value.controllerNames {
        var i :| 0 <= i < |paths| - 1 && ReadFile(root, paths[1..][i]).Some? && name in ReadFile(root, paths[1..][i]).value.controllerNames;
        assert paths[1..][i] == paths[i + 1];
      }
    }
  }

  /**
   * A successful discovery lists, for a readable slide file, every readable
   * template it names and a controller path for every controller named in
   * the slide or in one of those templates, except the slide's own id.
   */
  lemma DiscoverOutcome(root: Entry, thisDir: Path, slidePath: Path, slideId: string, name: string)
    requires Discover(root, thisDir, slidePath, slideId).Ok?
    ensures ReadFile(root, slidePath).Some?
    ensures var slide := ReadFile(root, slidePath).value;
            var found := Discover(root, thisDir, slidePath, slideId).value;
            && found.templates == TemplatePaths(thisDir, slide.templateNames)
            && (forall p :: p in found.templates ==> ReadFile(root, p).Some?)
            && (ControllerPath(thisDir, name) in found.controllers <==>
                 name != slideId &&
                 (name in slide.controllerNames ||
                  exists i :: 0 <= i < |found.templates| && ReadFile(root, found.templates[i]).Some? &&
                              name in ReadFile(root, found.templates[i]).value.controllerNames))
  {
    var slide := ReadFile(root, slidePath).value;
    var templates := TemplatePaths(thisDir, slide.templateNames);
    ReadTemplatesOk(root, templates, EmptyMarkup);
    ReadTemplatesControllers(root, templates, EmptyMarkup, name);
    var templatesHtml := ReadTemplates(root, templates, EmptyMarkup).value;
    ControllerPathsExactly(thisDir, Concat(slide, templatesHtml).controllerNames, slideId, name);
  }

  /**
   * Discovery succeeds exactly when the slide's markup file and every
   * template it names can be read; a failure names a path that cannot be read.
   */
  lemma DiscoverSucceeds(root: Entry, thisDir: Path, slidePath: Path, slideId: string)
    ensures Discover(root, thisDir, slidePath, slideId).Ok? <==>
              ReadFile(root, slidePath).Some? &&
              forall p :: p in TemplatePaths(thisDir, ReadFile(root, slidePath).value.templateNames) ==> ReadFile(root, p).Some?
    ensures Discover(root, thisDir, slidePath, slideId).Err? ==>
              ReadFile(root, Discover(root, thisDir, slidePath, slideId).error).None?
  {
    if ReadFile(root, slidePath).Some? {
      ReadTemplatesOk(root, TemplatePaths(thisDir, ReadFile(root, slidePath).value.templateNames), EmptyMarkup);
    }
  }

  /**
   * Inserting names into an object whose keys are the first-seen names so
   * far: the keys stay the first-seen names and each value is the path of
   * its key.
   */
  lemma PutNameStep(obj: OrderedMap<string, Path>, found: seq<string>, i: nat, path: string -> Path)
    requires i < |found|
    requires Keys(obj) == Dedup(found[..i])
    ensures Keys(Put(obj, found[i], path(found[i]))) == Dedup(found[..i + 1])
  {
    PutKeys(obj, found[i], path(found[i]));
    var s := found[..i + 1];
    assert s[..|s| - 1] == found[..i] && s[|s| - 1] == found[i];
  }

  method GetTemplates(slideHtml: Markup, thisDir: Path) returns (templates: seq<Path>)
    ensures templates == TemplatePaths(thisDir, slideHtml.templateNames)
  {
    var foundTemplates := Without(slideHtml.templateNames, CommonTemplates);
    var templatesObj: OrderedMap<string, Path> := [];
    for i := 0 to |foundTemplates|
      invariant Keys(templatesObj) == Dedup(foundTemplates[..i])
      invariant ValuesFollow(templatesObj, n => TemplatePath(thisDir, n))
    {
      PutNameStep(templatesObj, foundTemplates, i, n => TemplatePath(thisDir, n));
      PutFollows(templatesObj, foundTemplates[i], n => TemplatePath(thisDir, n));
      templatesObj := Put(templatesObj, foundTemplates[i], TemplatePath(thisDir, foundTemplates[i]));
    }
    assert foundTemplates[..|foundTemplates|] == foundTemplates;
    templates := Values(templatesObj);
    assert templates == TemplatePathsOf(thisDir, Keys(templatesObj));
  }

  method GetTemplateHtml(root: Entry, templates: seq<Path>) returns (r: Result<Markup, Path>)
    ensures r == ReadTemplates(root, templates, EmptyMarkup)
  {
    var templatesHtml := EmptyMarkup;
    for i := 0 to |templates|
      invariant ReadTemplates(root, templates[i..], templatesHtml) == ReadTemplates(root, templates, EmptyMarkup)
    {
      var m := ReadFile(root, templates[i]);
      if m.None? {
        return Err(templates[i]);
      }
      assert templates[i..][1..] == templates[i + 1..];
      templatesHtml := Concat(templatesHtml, m.value);
    }
    r := Ok(templatesHtml);
  }

  method GetControllers(slideHtml: Markup, templatesHtml: Markup, currentFileName: string, thisDir: Path)
    returns (controllers: seq<Path>)
    ensures controllers == ControllerPaths(thisDir, Concat(slideHtml, templatesHtml).controllerNames, currentFileName)
  {
    var html := Concat(slideHtml, templatesHtml);
    var foundControllers := Without(html.controllerNames, {currentFileName});
    var controllersObj: OrderedMap<string, Path> := [];
    for i := 0 to |foundControllers|
      invariant Keys(controllersObj) == Dedup(foundControllers[..i])
      invariant ValuesFollow(controllersObj, n => ControllerPath(thisDir, n))
    {
      PutNameStep(controllersObj, foundControllers, i, n => ControllerPath(thisDir, n));
      PutFollows(controllersObj, foundControllers[i], n => ControllerPath(thisDir, n));
      controllersObj := Put(controllersObj, foundControllers[i], ControllerPath(thisDir, foundControllers[i]));
    }
    assert foundControllers[..|foundControllers|] == foundControllers;
    controllers := Values(controllersObj);
    assert controllers == ControllerPathsOf(thisDir, Keys(controllersObj));
  }

  method GetTemplatesAndControllers(root: Entry, thisDir: Path, relativePath: Path, currentFileName: string)
    returns (r: Result<Discovered, Path>)
    ensures r == Discover(root, thisDir, relativePath, currentFileName)
  {
    var slideHtml := ReadFile(root, relativePath);
    if slideHtml.None? {
      return Err(relativePath);
    }
    var templates := GetTemplates(slideHtml.value, thisDir);
    var templatesHtml := GetTemplateHtml(root, templates);
    if templatesHtml.Err? {
      return Err(templatesHtml.error);
    }
    var controllers := GetControllers(slideHtml.value, templatesHtml.value, currentFileName, thisDir);
    r := Ok(Discovered(templates, controllers));
  }
}
