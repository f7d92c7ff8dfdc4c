/** Worked examples of the resolver on a small presentation. */
module Scenarios {
  import opened Wrappers
  import opened FileTree
  import opened OrderedMaps
  import opened Text
  import opened Lists
  import opened Discovery
  import opened Resolver

  const IntroHtml: Entry := File("intro.html", Markup(["hero"], ["navCtrl"]))
  const HeroHtml: Entry := File("hero.html", EmptyMarkup)
  const NavCtrlJs: Entry := File("navCtrl.js", EmptyMarkup)

  /** `app/intro.html` uses template `hero` and controller `navCtrl`. */
  const Presentation: Entry :=
    Dir("", [Dir("app", [IntroHtml, Dir("templates", [HeroHtml]), Dir("controllers", [NavCtrlJs])])])

  const App: Path := ["app"]
  const HeroPath: Path := ["app", "templates", "hero.html"]
  const NavCtrlPath: Path := ["app", "controllers", "navCtrl.js"]
  const IntroPath: Path := ["app", "intro.html"]
  const AppListing: seq<Entry> := [IntroHtml, Dir("templates", [HeroHtml]), Dir("controllers", [NavCtrlJs])]

  /** The keys recorded for `intro`: its template, its controller, then its markup. */
  const IntroDeps: DepMap := [
    Binding(DepKey("intro", "templates1"), HeroPath),
    Binding(DepKey("intro", "controllers1"), NavCtrlPath),
    Binding(DepKey("intro", "html"), IntroPath)]

  /** The example tree has `app` with its listing, the markup file and the template file. */
  predicate ShapedLikeExample(root: Entry)
  {
    Lookup(root, App) == Some(Dir("app", AppListing)) &&
    Lookup(root, IntroPath) == Some(IntroHtml) &&
    Lookup(root, HeroPath) == Some(HeroHtml)
  }

  /** None of the helper entries below `app` is a requested slide. */
  predicate HelpersUnrequested(slides: seq<string>)
  {
    "templates" !in slides && "hero" !in slides && "controllers" !in slides && "navCtrl" !in slides
  }

  /** Asking for `intro` yields its template, its controller and its markup, in that order. */
  lemma IntroResolves(root: Entry, slides: seq<string>)
    requires ShapedLikeExample(root)
    requires "intro" in slides && HelpersUnrequested(slides)
    ensures Dependencies(root, slides, App) == Resolved(IntroDeps)
  {
    IntroStep(root, slides);
    WalkApp(root, slides, [], IntroDeps);
    ResolvesTo(root, slides, App, AppListing, IntroDeps);
  }

  /** Ids that name nothing under `app` leave the dependency object empty (but defined). */
  lemma UnknownIdsResolveEmpty(root: Entry, slides: seq<string>)
    requires ShapedLikeExample(root)
    requires "intro" !in slides && HelpersUnrequested(slides)
    ensures Dependencies(root, slides, App) == Resolved([])
  {
    HeadIntro();
    SkipsFile(root, slides, App, IntroHtml, [], "intro");
    WalkApp(root, slides, [], []);
    ResolvesTo(root, slides, App, AppListing, []);
  }

  lemma ResolvesTo(root: Entry, slides: seq<string>, thisDir: Path, listing: seq<Entry>, deps: DepMap)
    requires Lookup(root, thisDir) == Some(Dir(Last(thisDir), listing))
    requires Scan(root, slides, thisDir, listing, []) == Ok(deps)
    ensures Dependencies(root, slides, thisDir) == Resolved(deps)
  {
  }

  /** An entry whose name before its first `.` is not requested adds nothing. */
  lemma SkipsFile(root: Entry, slides: seq<string>, thisDir: Path, e: Entry, acc: DepMap, head: string)
    requires e.File? && Split(e.name, '.')[0] == head && head !in slides
    ensures Step(root, slides, thisDir, e, acc) == Ok(acc)
  {
  }

  /** An unrequested directory adds what its own walk finds, here nothing. */
  lemma SkipsBareDir(root: Entry, slides: seq<string>, thisDir: Path, e: Entry, acc: DepMap, head: string)
    requires e.Dir? && Split(e.name, '.')[0] == head && head !in slides
    requires Scan(root, slides, thisDir + [e.name], e.children, []) == Ok([])
    ensures Step(root, slides, thisDir, e, acc) == Ok(acc)
  {
    assert Assign(acc, []) == acc;
  }

  lemma ScanFirst(root: Entry, slides: seq<string>, thisDir: Path, entries: seq<Entry>, acc: DepMap, next: DepMap)
    requires |entries| > 0 && Step(root, slides, thisDir, entries[0], acc) == Ok(next)
    ensures Scan(root, slides, thisDir, entries, acc) == Scan(root, slides, thisDir, entries[1..], next)
  {
  }

  lemma ScanNone(root: Entry, slides: seq<string>, thisDir: Path, entries: seq<Entry>, acc: DepMap)
    requires entries == []
    ensures Scan(root, slides, thisDir, entries, acc) == Ok(acc)
  {
  }

  /** Walking `app`: whatever the markup file adds, the two helper directories add nothing. */
  lemma WalkApp(root: Entry, slides: seq<string>, acc: DepMap, afterIntro: DepMap)
    requires HelpersUnrequested(slides)
    requires Step(root, slides, App, IntroHtml, acc) == Ok(afterIntro)
    ensures Scan(root, slides, App, AppListing, acc) == Ok(afterIntro)
  {
    var listing := AppListing;
    ScanFirst(root, slides, App, listing, acc, afterIntro);
    TemplatesDirAddsNothing(root, slides, afterIntro);
    ScanFirst(root, slides, App, listing[1..], afterIntro, afterIntro);
    ControllersDirAddsNothing(root, slides, afterIntro);
    ScanFirst(root, slides, App, listing[2..], afterIntro, afterIntro);
    ScanNone(root, slides, App, listing[3..], afterIntro);
    assert listing[1..][1..] == listing[2..] && listing[2..][1..] == listing[3..];
  }

  /** The example presentation is shaped as the scenarios above assume. */
  lemma PresentationLookups()
    ensures ShapedLikeExample(Presentation)
  {
    var app := Dir("app", AppListing);
    var templates := Dir("templates", [HeroHtml]);
    assert FindChild(Presentation.children, "app") == Some(app);
    assert Lookup(app, []) == Some(app);
    assert FindChild(AppListing, "intro.html") == Some(IntroHtml);
    assert Lookup(app, ["intro.html"]) == Some(IntroHtml);
    assert AppListing[1..][0] == templates;
    assert FindChild(AppListing, "templates") == Some(templates);
    assert Lookup(templates, ["hero.html"]) == Some(HeroHtml);
    assert Lookup(app, ["templates", "hero.html"]) == Some(HeroHtml);
    assert App[1..] == [] && IntroPath[1..] == ["intro.html"] && HeroPath[1..] == ["templates", "hero.html"];
  }

  /** The text before the first `.` of each name in the example. */
  lemma HeadIntro() ensures Split("intro.html", '.')[0] == "intro"
  {
    SplitPrefix("intro", "html", '.');
    assert "intro" + ['.'] + "html" == "intro.html";
  }

  lemma HeadHero() ensures Split("hero.html", '.')[0] == "hero"
  {
    SplitPrefix("hero", "html", '.');
    assert "hero" + ['.'] + "html" == "hero.html";
  }

  lemma HeadNavCtrl() ensures Split("navCtrl.js", '.')[0] == "navCtrl"
  {
    SplitPrefix("navCtrl", "js", '.');
    assert "navCtrl" + ['.'] + "js" == "navCtrl.js";
  }

  lemma HeadTemplates() ensures Split("templates", '.')[0] == "templates"
  {
    SplitFree("templates", '.');
  }

  lemma HeadControllers() ensures Split("controllers", '.')[0] == "controllers"
  {
    SplitFree("controllers", '.');
  }

  /** Neither `templates/` nor `controllers/` holds a requested slide's name. */
  lemma TemplatesDirAddsNothing(root: Entry, slides: seq<string>, acc: DepMap)
    requires "templates" !in slides && "hero" !in slides
    ensures Step(root, slides, App, AppListing[1], acc) == Ok(acc)
  {
    HeroAddsNothing(root, slides);
    HeadTemplates();
    SkipsBareDir(root, slides, App, AppListing[1], acc, "templates");
  }

  lemma HeroAddsNothing(root: Entry, slides: seq<string>)
    requires "hero" !in slides
    ensures Scan(root, slides, App + ["templates"], [HeroHtml], []) == Ok([])
  {
    var dir := App + ["templates"];
    var listing := [HeroHtml];
    HeadHero();
    SkipsFile(root, slides, dir, HeroHtml, [], "hero");
    ScanFirst(root, slides, dir, listing, [], []);
    ScanNone(root, slides, dir, listing[1..], []);
  }

  lemma ControllersDirAddsNothing(root: Entry, slides: seq<string>, acc: DepMap)
    requires "controllers" !in slides && "navCtrl" !in slides
    ensures Step(root, slides, App, AppListing[2], acc) == Ok(acc)
  {
    NavCtrlAddsNothing(root, slides);
    HeadControllers();
    SkipsBareDir(root, slides, App, AppListing[2], acc, "controllers");
  }

  lemma NavCtrlAddsNothing(root: Entry, slides: seq<string>)
    requires "navCtrl" !in slides
    ensures Scan(root, slides, App + ["controllers"], [NavCtrlJs], []) == Ok([])
  {
    var dir := App + ["controllers"];
    var listing := [NavCtrlJs];
    HeadNavCtrl();
    SkipsFile(root, slides, dir, NavCtrlJs, [], "navCtrl");
    ScanFirst(root, slides, dir, listing, [], []);
    ScanNone(root, slides, dir, listing[1..], []);
  }

  /** `intro.html` names template `hero` (which names nothing more) and controller `navCtrl`. */
  lemma IntroDiscovery(root: Entry)
    requires Lookup(root, IntroPath) == Some(IntroHtml) && Lookup(root, HeroPath) == Some(HeroHtml)
    ensures Discover(root, App, IntroPath, "intro") == Ok(Discovered([HeroPath], [NavCtrlPath]))
  {
    HeroTemplatePaths();
    HeroReads(root);
    var html := Concat(IntroHtml.markup, EmptyMarkup);
    assert html.controllerNames == ["navCtrl"];
    NavCtrlControllerPaths();
  }

  lemma HeroReads(root: Entry)
    requires Lookup(root, HeroPath) == Some(HeroHtml)
    ensures ReadTemplates(root, [HeroPath], EmptyMarkup) == Ok(EmptyMarkup)
  {
    var paths := [HeroPath];
    assert ReadFile(root, paths[0]) == Some(EmptyMarkup);
    assert Concat(EmptyMarkup, EmptyMarkup) == EmptyMarkup;
    assert ReadTemplates(root, paths[1..], EmptyMarkup) == Ok(EmptyMarkup);
  }

  lemma HeroTemplatePaths()
    ensures TemplatePaths(App, ["hero"]) == [HeroPath]
  {
    assert "hero" !in CommonTemplates;
    SingleName("hero", CommonTemplates);
    assert TemplateNames(["hero"]) == ["hero"];
    var paths := TemplatePathsOf(App, ["hero"]);
    assert |paths| == 1 && paths[0] == TemplatePath(App, "hero");
    assert "hero" + ".html" == "hero.html";
    assert TemplatePath(App, "hero") == HeroPath;
  }

  lemma NavCtrlControllerPaths()
    ensures ControllerPaths(App, ["navCtrl"], "intro") == [NavCtrlPath]
  {
    assert "navCtrl" !in {"intro"};
    SingleName("navCtrl", {"intro"});
    assert ControllerNames(["navCtrl"], "intro") == ["navCtrl"];
    var paths := ControllerPathsOf(App, ["navCtrl"]);
    assert |paths| == 1 && paths[0] == ControllerPath(App, "navCtrl");
    assert "navCtrl" + ".js" == "navCtrl.js";
    assert ControllerPath(App, "navCtrl") == NavCtrlPath;
  }

  /** A single name that is not excluded survives filtering and de-duplication. */
  lemma SingleName(name: string, excluded: set<string>)
    requires name !in excluded
    ensures Dedup(Without([name], excluded)) == [name]
  {
    var found := [name];
    assert found[..0] == [];
    assert Without(found, excluded) == found;
  }

  /** A requested markup file in `app` records its templates, its controllers, then itself. */
  lemma IntroStep(root: Entry, slides: seq<string>)
    requires "intro" in slides
    requires Lookup(root, IntroPath) == Some(IntroHtml) && Lookup(root, HeroPath) == Some(HeroHtml)
    ensures Step(root, slides, App, IntroHtml, []) == Ok(IntroDeps)
  {
    HeadIntro();
    assert App + [IntroHtml.name] == IntroPath;
    IntroDiscovery(root);
    RecordsInApp(root, slides, App, IntroHtml, [], "intro", Discovered([HeroPath], [NavCtrlPath]));
    IntroKeys();
  }

  /** A requested entry of an `app` directory is recorded with what discovery finds for it. */
  lemma RecordsInApp(root: Entry, slides: seq<string>, thisDir: Path, e: Entry, acc: DepMap, id: string, found: Discovered)
    requires Last(thisDir) == "app" && Split(e.name, '.')[0] == id && id in slides && id != ""
    requires Discover(root, thisDir, thisDir + [e.name], id) == Ok(found)
    ensures Step(root, slides, thisDir, e, acc) ==
              Ok(Put(PutEach(PutEach(acc, id, "templates", found.templates, 0), id, "controllers", found.controllers, 0),
                     DepKey(id, "html"), thisDir + [e.name]))
  {
  }

  lemma PutEachOne(acc: DepMap, id: string, kind: string, p: Path)
    ensures PutEach(acc, id, kind, [p], 0) == Put(acc, DepKey(id, kind + "1"), p)
  {
    assert NatToString(1) == "1";
    assert PutEach(acc, id, kind, [p], 0) == PutEach(Put(acc, IndexedKey(id, kind, 0), p), id, kind, [p], 1);
  }

  lemma IntroKeys()
    ensures Put(PutEach(PutEach([], "intro", "templates", [HeroPath], 0), "intro", "controllers", [NavCtrlPath], 0),
                DepKey("intro", "html"), IntroPath) == IntroDeps
  {
    RecordedKeys("intro", HeroPath, NavCtrlPath, IntroPath);
  }

  /** One template and one controller: `templates1`, `controllers1`, then `html`. */
  lemma RecordedKeys(id: string, t: Path, c: Path, h: Path)
    ensures Put(PutEach(PutEach([], id, "templates", [t], 0), id, "controllers", [c], 0), DepKey(id, "html"), h) ==
              [Binding(DepKey(id, "templates1"), t), Binding(DepKey(id, "controllers1"), c), Binding(DepKey(id, "html"), h)]
  {
    assert "templates" + "1" == "templates1" && "controllers" + "1" == "controllers1";
    PutEachOne([], id, "templates", t);
    PutEachOne(Put([], DepKey(id, "templates1"), t), id, "controllers", c);
    ThreeKeys(DepKey(id, "templates1"), DepKey(id, "controllers1"), DepKey(id, "html"), t, c, h);
  }

  lemma ThreeKeys(a: DepKey, b: DepKey, c: DepKey, x: Path, y: Path, z: Path)
    requires a != b && a != c && b != c
    ensures Put(Put(Put([], a, x), b, y), c, z) == [Binding(a, x), Binding(b, y), Binding(c, z)]
  {
    SecondKey(a, b, x, y);
    ThirdKey(a, b, c, x, y, z);
  }

  lemma SecondKey(a: DepKey, b: DepKey, x: Path, y: Path)
    requires a != b
    ensures Put(Put([], a, x), b, y) == [Binding(a, x), Binding(b, y)]
  {
    var m := [Binding(a, x)];
    PutNew([], a, x);
    assert Keys(m) == [a];
    PutNew(m, b, y);
  }

  lemma ThirdKey(a: DepKey, b: DepKey, c: DepKey, x: Path, y: Path, z: Path)
    requires a != c && b != c
    ensures Put([Binding(a, x), Binding(b, y)], c, z) == [Binding(a, x), Binding(b, y), Binding(c, z)]
  {
    var m := [Binding(a, x), Binding(b, y)];
    assert c !in Keys(m) by {
      assert |Keys(m)| == 2 && Keys(m)[0] == a && Keys(m)[1] == b;
    }
    PutNew(m, c, z);
    assert m + [Binding(c, z)] == [Binding(a, x), Binding(b, y), Binding(c, z)];
  }

  /** Templates keep document order: `b` before `a` stays `b` before `a`; `layout` and the repeat are dropped. */
  lemma TemplatesKeepDocumentOrder()
    ensures TemplatePaths(["app"], ["b", "a", "layout", "b"]) ==
              [["app", "templates", "b.html"], ["app", "templates", "a.html"]]
  {
    OrderExampleNames();
    OrderExamplePaths();
  }

  lemma OrderExampleNames()
    ensures TemplateNames(["b", "a", "layout", "b"]) == ["b", "a"]
  {
    var found := ["b", "a", "layout", "b"];
    OrderExampleFilter();
    var d := ["b", "a", "b"];
    assert d[..1][..0] == [] && d[..2][..1] == d[..1] && d[..2] == d[..|d| - 1];
    assert Dedup(d[..1]) == ["b"];
    assert Dedup(d[..2]) == ["b", "a"];
  }

  lemma OrderExampleFilter()
    ensures Without(["b", "a", "layout", "b"], CommonTemplates) == ["b", "a", "b"]
  {
    var found := ["b", "a", "layout", "b"];
    assert found[..1][..0] == [];
    assert Without(found[..1], CommonTemplates) == ["b"];
    assert found[..2][..1] == found[..1];
    assert Without(found[..2], CommonTemplates) == ["b", "a"];
    assert found[..3][..2] == found[..2];
    assert Without(found[..3], CommonTemplates) == ["b", "a"];
    assert found[..3] == found[..|found| - 1];
  }

  lemma OrderExamplePaths()
    ensures TemplatePathsOf(["app"], ["b", "a"]) == [["app", "templates", "b.html"], ["app", "templates", "a.html"]]
  {
    assert "b" + ".html" == "b.html" && "a" + ".html" == "a.html";
    var r := TemplatePathsOf(["app"], ["b", "a"]);
    assert r[0] == ["app", "templates", "b.html"] && r[1] == ["app", "templates", "a.html"];
  }
}
