/** What the dependency walk guarantees about the keys and paths it records. */
module ResolverProperties {
  import opened Wrappers
  import opened FileTree
  import opened OrderedMaps
  import opened Text
  import opened Discovery
  import opened Resolver

  /** Every key names a slide that was asked for (and is not the empty, falsy id). */
  ghost predicate RequestedKeys(d: DepMap, slidesForClone: seq<string>)
  {
    forall k :: k in Keys(d) ==> k.slide in slidesForClone && k.slide != ""
  }

  lemma {:induction false} StepRequested(root: Entry, slidesForClone: seq<string>, thisDir: Path, e: Entry, acc: DepMap)
    requires RequestedKeys(acc, slidesForClone)
    ensures Step(root, slidesForClone, thisDir, e, acc).Ok? ==>
              RequestedKeys(Step(root, slidesForClone, thisDir, e, acc).value, slidesForClone)
    decreases Size(e), 0
  {
    var m := CheckFileName(e.name, slidesForClone);
    if !Matched(m) && e.Dir? {
      ScanRequested(root, slidesForClone, thisDir + [e.name], e.children, []);
    } else if Matched(m) {
      RecordKeys(root, thisDir, thisDir + [e.name], m.value, acc);
    }
  }

  /** A matched entry only adds keys of its own slide. */
  lemma RecordKeys(root: Entry, thisDir: Path, relativePath: Path, slideId: string, acc: DepMap)
    ensures Record(root, thisDir, relativePath, slideId, acc).Ok? ==>
              forall k :: k in Keys(Record(root, thisDir, relativePath, slideId, acc).value) ==>
                k in Keys(acc) || k.slide == slideId
  {
    if Last(thisDir) == "app" {
      var found := Discover(root, thisDir, relativePath, slideId);
      if found.Ok? {
        var withTemplates := PutEach(acc, slideId, "templates", found.value.templates, 0);
        var withControllers := PutEach(withTemplates, slideId, "controllers", found.value.controllers, 0);
        assert Record(root, thisDir, relativePath, slideId, acc) == Ok(Put(withControllers, DepKey(slideId, "html"), relativePath));
        PutKeys(withControllers, DepKey(slideId, "html"), relativePath);
      }
    } else {
      PutKeys(acc, DepKey(slideId, Last(thisDir)), relativePath);
    }
  }

  /** An unrequested slide never contributes a key. */
  lemma {:induction false} ScanRequested(root: Entry, slidesForClone: seq<string>, thisDir: Path, entries: seq<Entry>, acc: DepMap)
    requires RequestedKeys(acc, slidesForClone)
    ensures Scan(root, slidesForClone, thisDir, entries, acc).Ok? ==>
              RequestedKeys(Scan(root, slidesForClone, thisDir, entries, acc).value, slidesForClone)
    decreases SizeAll(entries), 1
  {
    if |entries| > 0 {
      StepRequested(root, slidesForClone, thisDir, entries[0], acc);
      var next := Step(root, slidesForClone, thisDir, entries[0], acc);
      if next.Ok? {
        ScanRequested(root, slidesForClone, thisDir, entries[1..], next.value);
      }
    }
  }

  lemma DependenciesRequested(root: Entry, slidesForClone: seq<string>, thisDir: Path)
    requires Dependencies(root, slidesForClone, thisDir).Resolved?
    ensures RequestedKeys(Dependencies(root, slidesForClone, thisDir).deps, slidesForClone)
  {
    ScanRequested(root, slidesForClone, thisDir, Lookup(root, thisDir).value.children, []);
  }

  /** Later entries may overwrite a value but never remove a key. */
  lemma {:induction false} ScanKeepsKeys(root: Entry, slidesForClone: seq<string>, thisDir: Path, entries: seq<Entry>, acc: DepMap)
    requires Scan(root, slidesForClone, thisDir, entries, acc).Ok?
    ensures forall k :: k in Keys(acc) ==> k in Keys(Scan(root, slidesForClone, thisDir, entries, acc).value)
  {
    if |entries| > 0 {
      var next := Step(root, slidesForClone, thisDir, entries[0], acc).value;
      StepKeepsKeys(root, slidesForClone, thisDir, entries[0], acc);
      ScanKeepsKeys(root, slidesForClone, thisDir, entries[1..], next);
    }
  }

  lemma StepKeepsKeys(root: Entry, slidesForClone: seq<string>, thisDir: Path, e: Entry, acc: DepMap)
    requires Step(root, slidesForClone, thisDir, e, acc).Ok?
    ensures forall k :: k in Keys(acc) ==> k in Keys(Step(root, slidesForClone, thisDir, e, acc).value)
  {
    var m := CheckFileName(e.name, slidesForClone);
    var relativePath := thisDir + [e.name];
    if Matched(m) {
      if Last(thisDir) == "app" {
        var found := Discover(root, thisDir, relativePath, m.value).value;
        var withTemplates := PutEach(acc, m.value, "templates", found.templates, 0);
        var withControllers := PutEach(withTemplates, m.value, "controllers", found.controllers, 0);
        PutKeys(withControllers, DepKey(m.value, "html"), relativePath);
      } else {
        PutKeys(acc, DepKey(m.value, Last(thisDir)), relativePath);
      }
    }
  }

  /** The key a matched entry of `thisDir` is recorded under. */
  function LabelKey(thisDir: Path, slideId: string): DepKey
  {
    DepKey(slideId, if Last(thisDir) == "app" then "html" else Last(thisDir))
  }

  /**
   * Every entry of the listing whose name matches a requested slide ends
   * up under its key; every non-matching directory is walked and all the
   * keys found below it are merged in.
   */
  lemma {:induction false} ScanRecordsEntry(root: Entry, slidesForClone: seq<string>, thisDir: Path, entries: seq<Entry>, acc: DepMap, i: nat)
    requires i < |entries|
    requires Scan(root, slidesForClone, thisDir, entries, acc).Ok?
    ensures var m := CheckFileName(entries[i].name, slidesForClone);
            Matched(m) ==> LabelKey(thisDir, m.value) in Keys(Scan(root, slidesForClone, thisDir, entries, acc).value)
    ensures var m := CheckFileName(entries[i].name, slidesForClone);
            !Matched(m) && entries[i].Dir? ==>
              && Scan(root, slidesForClone, thisDir + [entries[i].name], entries[i].children, []).Ok?
              && forall k :: k in Keys(Scan(root, slidesForClone, thisDir + [entries[i].name], entries[i].children, []).value) ==>
                   k in Keys(Scan(root, slidesForClone, thisDir, entries, acc).value)
  {
    var next := Step(root, slidesForClone, thisDir, entries[0], acc).value;
    if i == 0 {
      StepRecordsEntry(root, slidesForClone, thisDir, entries[0], acc);
      ScanKeepsKeys(root, slidesForClone, thisDir, entries[1..], next);
    } else {
      ScanRecordsEntry(root, slidesForClone, thisDir, entries[1..], next, i - 1);
    }
  }

  lemma StepRecordsEntry(root: Entry, slidesForClone: seq<string>, thisDir: Path, e: Entry, acc: DepMap)
    requires Step(root, slidesForClone, thisDir, e, acc).Ok?
    ensures var m := CheckFileName(e.name, slidesForClone);
            Matched(m) ==> LabelKey(thisDir, m.value) in Keys(Step(root, slidesForClone, thisDir, e, acc).value)
    ensures var m := CheckFileName(e.name, slidesForClone);
            !Matched(m) && e.Dir? ==>
              && Scan(root, slidesForClone, thisDir + [e.name], e.children, []).Ok?
              && forall k :: k in Keys(Scan(root, slidesForClone, thisDir + [e.name], e.children, []).value) ==>
                   k in Keys(Step(root, slidesForClone, thisDir, e, acc).value)
  {
    var m := CheckFileName(e.name, slidesForClone);
    if Matched(m) {
      var d := Step(root, slidesForClone, thisDir, e, acc).value;
      assert Get(d, LabelKey(thisDir, m.value)).Some?;
    }
  }

  /** No entry at any depth of the listing has a name that matches a requested slide. */
  ghost predicate NoMatchBelow(entries: seq<Entry>, slidesForClone: seq<string>)
    decreases SizeAll(entries)
  {
    forall i :: 0 <= i < |entries| ==>
      && !Matched(CheckFileName(entries[i].name, slidesForClone))
      && (entries[i].Dir? ==> (SizeAllAt(entries, i); NoMatchBelow(entries[i].children, slidesForClone)))
  }

  /** A walk that meets no requested name records nothing (the "missing id" case yields an empty object). */
  lemma {:induction false} ScanWithoutMatches(root: Entry, slidesForClone: seq<string>, thisDir: Path, entries: seq<Entry>, acc: DepMap)
    requires NoMatchBelow(entries, slidesForClone)
    ensures Scan(root, slidesForClone, thisDir, entries, acc) == Ok(acc)
    decreases SizeAll(entries)
  {
    if |entries| > 0 {
      var e := entries[0];
      if e.Dir? {
        SizeAllAt(entries, 0);
        ScanWithoutMatches(root, slidesForClone, thisDir + [e.name], e.children, []);
      }
      assert NoMatchBelow(entries[1..], slidesForClone) by {
        forall i | 0 <= i < |entries| - 1 ensures entries[1..][i] == entries[i + 1] { }
      }
      ScanWithoutMatches(root, slidesForClone, thisDir, entries[1..], acc);
    }
  }

  /**
   * A directory whose name matches a requested slide is recorded as a leaf:
   * what it contains is never looked at.
   */
  lemma MatchedDirIsLeaf(root: Entry, slidesForClone: seq<string>, thisDir: Path, name: string,
                         children: seq<Entry>, otherChildren: seq<Entry>, acc: DepMap)
    requires Matched(CheckFileName(name, slidesForClone))
    ensures Step(root, slidesForClone, thisDir, Dir(name, children), acc) ==
            Step(root, slidesForClone, thisDir, Dir(name, otherChildren), acc)
  {
  }

  /** Outside `app`, a matched entry adds only its label key, mapped to its own path. */
  lemma MatchedOutsideApp(root: Entry, slidesForClone: seq<string>, thisDir: Path, e: Entry, acc: DepMap)
    requires Matched(CheckFileName(e.name, slidesForClone)) && Last(thisDir) != "app"
    ensures Step(root, slidesForClone, thisDir, e, acc) ==
            Ok(Put(acc, LabelKey(thisDir, CheckFileName(e.name, slidesForClone).value), thisDir + [e.name]))
  {
  }

  /**
   * Replacing the contents of a matched directory anywhere in a listing
   * leaves the walk's outcome unchanged: the walk does not descend into it.
   */
  lemma {:induction false} MatchedDirNotDescended(root: Entry, slidesForClone: seq<string>, thisDir: Path,
                                                  entries: seq<Entry>, acc: DepMap, i: nat, otherChildren: seq<Entry>)
    requires i < |entries| && entries[i].Dir? && Matched(CheckFileName(entries[i].name, slidesForClone))
    ensures Scan(root, slidesForClone, thisDir, entries[i := Dir(entries[i].name, otherChildren)], acc) ==
            Scan(root, slidesForClone, thisDir, entries, acc)
    decreases i
  {
    var replaced := entries[i := Dir(entries[i].name, otherChildren)];
    if i == 0 {
      MatchedDirIsLeaf(root, slidesForClone, thisDir, entries[0].name, entries[0].children, otherChildren, acc);
      assert replaced[1..] == entries[1..];
    } else {
      assert replaced[0] == entries[0];
      var next := Step(root, slidesForClone, thisDir, entries[0], acc);
      if next.Ok? {
        MatchedDirNotDescended(root, slidesForClone, thisDir, entries[1..], next.value, i - 1, otherChildren);
        assert replaced[1..] == entries[1..][i - 1 := Dir(entries[i].name, otherChildren)];
      }
    }
  }

  /** The j-th discovered path sits under key `<kind><j + 1>`, whatever came after it. */
  lemma {:induction false} PutEachBindings(acc: DepMap, slideId: string, kind: string, paths: seq<Path>, i: nat, j: nat)
    requires i <= j < |paths|
    ensures Get(PutEach(acc, slideId, kind, paths, i), IndexedKey(slideId, kind, j)) == Some(paths[j])
    decreases |paths| - i
  {
    var next := Put(acc, IndexedKey(slideId, kind, i), paths[i]);
    assert PutEach(acc, slideId, kind, paths, i) == PutEach(next, slideId, kind, paths, i + 1);
    if i == j {
      forall k | i + 1 <= k < |paths| ensures IndexedKey(slideId, kind, k) != IndexedKey(slideId, kind, j) {
        if IndexedKey(slideId, kind, k) == IndexedKey(slideId, kind, j) {
          IndexedKeyInjective(slideId, kind, k, j);
        }
      }
      PutEachUntouched(next, slideId, kind, paths, i + 1, IndexedKey(slideId, kind, j));
    } else {
      PutEachBindings(next, slideId, kind, paths, i + 1, j);
    }
  }

  lemma IndexedKeyInjective(slideId: string, kind: string, a: nat, b: nat)
    requires IndexedKey(slideId, kind, a) == IndexedKey(slideId, kind, b)
    ensures a == b
  {
    var sa, sb := NatToString(a + 1), NatToString(b + 1);
    assert (kind + sa)[|kind|..] == sa && (kind + sb)[|kind|..] == sb;
    NatToStringInjective(a + 1, b + 1);
  }

  /** Keys other than the ones written from index `i` on keep their value. */
  lemma {:induction false} PutEachUntouched(acc: DepMap, slideId: string, kind: string, paths: seq<Path>, i: nat, key: DepKey)
    requires i <= |paths|
    requires forall k :: i <= k < |paths| ==> IndexedKey(slideId, kind, k) != key
    ensures Get(PutEach(acc, slideId, kind, paths, i), key) == Get(acc, key)
    decreases |paths| - i
  {
    if i < |paths| {
      PutEachUntouched(Put(acc, IndexedKey(slideId, kind, i), paths[i]), slideId, kind, paths, i + 1, key);
    }
  }

  /**
   * A slide matched in an `app` directory gets `html` for its own path and
   * `templates1..n`, `controllers1..m` for the discovered paths in discovery
   * order; a slide matched anywhere else gets its directory's name as label.
   * Keys of other slides are left alone.
   */
  lemma RecordBindings(root: Entry, thisDir: Path, relativePath: Path, slideId: string, acc: DepMap)
    requires Record(root, thisDir, relativePath, slideId, acc).Ok?
    ensures var d := Record(root, thisDir, relativePath, slideId, acc).value;
            && Get(d, LabelKey(thisDir, slideId)) == Some(relativePath)
            && (forall k: DepKey :: k.slide != slideId ==> Get(d, k) == Get(acc, k))
    ensures Last(thisDir) == "app" ==>
              var d := Record(root, thisDir, relativePath, slideId, acc).value;
              var found := Discover(root, thisDir, relativePath, slideId).value;
              && (forall j :: 0 <= j < |found.templates| ==> Get(d, IndexedKey(slideId, "templates", j)) == Some(found.templates[j]))
              && (forall j :: 0 <= j < |found.controllers| ==> Get(d, IndexedKey(slideId, "controllers", j)) == Some(found.controllers[j]))
  {
    if Last(thisDir) == "app" {
      var found := Discover(root, thisDir, relativePath, slideId).value;
      var withTemplates := PutEach(acc, slideId, "templates", found.templates, 0);
      var withControllers := PutEach(withTemplates, slideId, "controllers", found.controllers, 0);
      forall j | 0 <= j < |found.templates|
        ensures Get(withControllers, IndexedKey(slideId, "templates", j)) == Some(found.templates[j])
      {
        PutEachBindings(acc, slideId, "templates", found.templates, 0, j);
        assert IndexedKey(slideId, "templates", j).category[0] == 't';
      }
      forall j | 0 <= j < |found.controllers|
        ensures Get(withControllers, IndexedKey(slideId, "controllers", j)) == Some(found.controllers[j])
      {
        PutEachBindings(withTemplates, slideId, "controllers", found.controllers, 0, j);
      }
      forall j | 0 <= j ensures IndexedKey(slideId, "templates", j) != DepKey(slideId, "html")
                           && IndexedKey(slideId, "controllers", j) != DepKey(slideId, "html") {
        assert IndexedKey(slideId, "templates", j).category[0] == 't';
        assert IndexedKey(slideId, "controllers", j).category[0] == 'c';
      }
    }
  }

  /** Indexed assignment keeps the keys distinct. */
  lemma {:induction false} PutEachUnique(acc: DepMap, slideId: string, kind: string, paths: seq<Path>, i: nat)
    requires i <= |paths| && UniqueKeys(acc)
    ensures UniqueKeys(PutEach(acc, slideId, kind, paths, i))
    decreases |paths| - i
  {
    if i < |paths| {
      var key := IndexedKey(slideId, kind, i);
      PutKeepsKeysUnique(acc, key, paths[i]);
      PutEachUnique(Put(acc, key, paths[i]), slideId, kind, paths, i + 1);
    }
  }

  lemma RecordUnique(root: Entry, thisDir: Path, relativePath: Path, slideId: string, acc: DepMap)
    requires UniqueKeys(acc)
    ensures Record(root, thisDir, relativePath, slideId, acc).Ok? ==>
              UniqueKeys(Record(root, thisDir, relativePath, slideId, acc).value)
  {
    if Last(thisDir) == "app" && Discover(root, thisDir, relativePath, slideId).Ok? {
      var found := Discover(root, thisDir, relativePath, slideId).value;
      PutEachUnique(acc, slideId, "templates", found.templates, 0);
      var withTemplates := PutEach(acc, slideId, "templates", found.templates, 0);
      PutEachUnique(withTemplates, slideId, "controllers", found.controllers, 0);
      var withControllers := PutEach(withTemplates, slideId, "controllers", found.controllers, 0);
      PutKeepsKeysUnique(withControllers, DepKey(slideId, "html"), relativePath);
    } else if Last(thisDir) != "app" {
      PutKeepsKeysUnique(acc, DepKey(slideId, Last(thisDir)), relativePath);
    }
  }

  lemma StepUnique(root: Entry, slidesForClone: seq<string>, thisDir: Path, e: Entry, acc: DepMap)
    requires UniqueKeys(acc)
    ensures Step(root, slidesForClone, thisDir, e, acc).Ok? ==> UniqueKeys(Step(root, slidesForClone, thisDir, e, acc).value)
  {
    var m := CheckFileName(e.name, slidesForClone);
    if !Matched(m) && e.Dir? {
      var sub := Scan(root, slidesForClone, thisDir + [e.name], e.children, []);
      if sub.Ok? {
        AssignKeepsKeysUnique(acc, sub.value);
      }
    } else if Matched(m) {
      RecordUnique(root, thisDir, thisDir + [e.name], m.value, acc);
    }
  }

  lemma {:induction false} ScanUnique(root: Entry, slidesForClone: seq<string>, thisDir: Path, entries: seq<Entry>, acc: DepMap)
    requires UniqueKeys(acc)
    ensures Scan(root, slidesForClone, thisDir, entries, acc).Ok? ==> UniqueKeys(Scan(root, slidesForClone, thisDir, entries, acc).value)
    decreases |entries|
  {
    if |entries| > 0 {
      StepUnique(root, slidesForClone, thisDir, entries[0], acc);
      var next := Step(root, slidesForClone, thisDir, entries[0], acc);
      if next.Ok? {
        ScanUnique(root, slidesForClone, thisDir, entries[1..], next.value);
      }
    }
  }

  /**
   * The dependency object holds every key once, as a JavaScript object does,
   * so the clone loop visits each key exactly once.
   */
  lemma DependenciesUnique(root: Entry, slidesForClone: seq<string>, thisDir: Path)
    requires Dependencies(root, slidesForClone, thisDir).Resolved?
    ensures UniqueKeys(Dependencies(root, slidesForClone, thisDir).deps)
  {
    ScanUnique(root, slidesForClone, thisDir, Lookup(root, thisDir).value.children, []);
  }

  /** A key `"<slide>: controllers<N>"` under which a discovered controller is recorded. */
  ghost predicate IsControllerKey(k: DepKey)
  {
    exists j: nat :: k == IndexedKey(k.slide, "controllers", j)
  }

  /**
   * Every recorded path exists in the tree, except the paths recorded under
   * a `controllersN` key, which are built from the naming convention and
   * never checked.
   */
  ghost predicate Located(root: Entry, d: DepMap)
  {
    forall b :: b in d ==> Lookup(root, b.value).Some? || IsControllerKey(b.key)
  }

  lemma RecordLocated(root: Entry, thisDir: Path, relativePath: Path, slideId: string, acc: DepMap)
    requires Lookup(root, relativePath).Some? && Located(root, acc)
    ensures Record(root, thisDir, relativePath, slideId, acc).Ok? ==>
              Located(root, Record(root, thisDir, relativePath, slideId, acc).value)
  {
    if Last(thisDir) == "app" && Discover(root, thisDir, relativePath, slideId).Ok? {
      var found := Discover(root, thisDir, relativePath, slideId).value;
      DiscoveredLocated(root, thisDir, relativePath, slideId);
      var withTemplates := PutEach(acc, slideId, "templates", found.templates, 0);
      PutEachLocated(root, acc, slideId, "templates", found.templates, 0);
      var withControllers := PutEach(withTemplates, slideId, "controllers", found.controllers, 0);
      PutEachLocated(root, withTemplates, slideId, "controllers", found.controllers, 0);
      PutLocated(root, withControllers, DepKey(slideId, "html"), relativePath);
    } else if Last(thisDir) != "app" {
      PutLocated(root, acc, DepKey(slideId, Last(thisDir)), relativePath);
    }
  }

  /** A path that exists may be recorded under any key, any path under a controller key. */
  lemma PutLocated(root: Entry, acc: DepMap, key: DepKey, p: Path)
    requires Located(root, acc) && (Lookup(root, p).Some? || IsControllerKey(key))
    ensures Located(root, Put(acc, key, p))
  {
  }

  /** Indexed keys keep the map located: templates exist, and controllers go under controller keys. */
  lemma {:induction false} PutEachLocated(root: Entry, acc: DepMap, slideId: string, kind: string, paths: seq<Path>, i: nat)
    requires i <= |paths| && Located(root, acc)
    requires forall p :: p in paths ==> Lookup(root, p).Some? || kind == "controllers"
    ensures Located(root, PutEach(acc, slideId, kind, paths, i))
    decreases |paths| - i
  {
    if i < |paths| {
      var key := IndexedKey(slideId, kind, i);
      if kind == "controllers" {
        assert key == IndexedKey(key.slide, "controllers", i);
      }
      PutLocated(root, acc, key, paths[i]);
      PutEachLocated(root, Put(acc, key, paths[i]), slideId, kind, paths, i + 1);
    }
  }

  /** Discovered templates were read, so they exist. */
  lemma DiscoveredLocated(root: Entry, thisDir: Path, slidePath: Path, slideId: string)
    requires Discover(root, thisDir, slidePath, slideId).Ok?
    ensures forall p :: p in Discover(root, thisDir, slidePath, slideId).value.templates ==> Lookup(root, p).Some?
  {
    DiscoverOutcome(root, thisDir, slidePath, slideId, "");
  }


  lemma {:induction false} StepLocated(root: Entry, slidesForClone: seq<string>, thisDir: Path, e: Entry, acc: DepMap)
    requires WellFormed(root) && Located(root, acc)
    requires Lookup(root, thisDir + [e.name]) == Some(e)
    ensures Step(root, slidesForClone, thisDir, e, acc).Ok? ==> Located(root, Step(root, slidesForClone, thisDir, e, acc).value)
    decreases Size(e), 0
  {
    var m := CheckFileName(e.name, slidesForClone);
    if !Matched(m) && e.Dir? {
      var here := thisDir + [e.name];
      forall c | c in e.children ensures Lookup(root, here + [c.name]) == Some(c) {
        var i :| 0 <= i < |e.children| && e.children[i] == c;
        LookupChild(root, here, i);
      }
      ScanLocated(root, slidesForClone, here, e.children, []);
    } else if Matched(m) {
      RecordLocated(root, thisDir, thisDir + [e.name], m.value, acc);
    }
  }

  lemma {:induction false} ScanLocated(root: Entry, slidesForClone: seq<string>, thisDir: Path, entries: seq<Entry>, acc: DepMap)
    requires WellFormed(root) && Located(root, acc)
    requires forall e :: e in entries ==> Lookup(root, thisDir + [e.name]) == Some(e)
    ensures Scan(root, slidesForClone, thisDir, entries, acc).Ok? ==> Located(root, Scan(root, slidesForClone, thisDir, entries, acc).value)
    decreases SizeAll(entries), 1
  {
    if |entries| > 0 {
      StepLocated(root, slidesForClone, thisDir, entries[0], acc);
      var next := Step(root, slidesForClone, thisDir, entries[0], acc);
      if next.Ok? {
        ScanLocated(root, slidesForClone, thisDir, entries[1..], next.value);
      }
    }
  }

  /**
   * At resolution time every recorded path of a well-formed tree exists,
   * except those recorded under `controllersN` keys, which are built from
   * the naming convention and never checked.
   */
  lemma DependenciesLocated(root: Entry, slidesForClone: seq<string>, thisDir: Path)
    requires WellFormed(root)
    requires Dependencies(root, slidesForClone, thisDir).Resolved?
    ensures Located(root, Dependencies(root, slidesForClone, thisDir).deps)
  {
    var children := Lookup(root, thisDir).value.children;
    forall c | c in children ensures Lookup(root, thisDir + [c.name]) == Some(c) {
      var i :| 0 <= i < |children| && children[i] == c;
      LookupChild(root, thisDir, i);
    }
    ScanLocated(root, slidesForClone, thisDir, children, []);
  }
}
