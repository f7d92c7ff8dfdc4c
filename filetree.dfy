/**
 * The presentation directory as a tree. A path is the sequence of its
 * segments, relative to the presentation root (the working directory the
 * script runs in). A file carries its markup already parsed: the `name`
 * attribute of every `rv-template` element and the value of every
 * `rv-controller` attribute, in document order.
 */
module FileTree {
  import opened Wrappers

  type Path = seq<string>

  /** What the markup parser reports for one document. */
  datatype Markup = Markup(templateNames: seq<string>, controllerNames: seq<string>)

  /** Markup of two texts joined one after the other. */
  function Concat(a: Markup, b: Markup): Markup
  {
    Markup(a.templateNames + b.templateNames, a.controllerNames + b.controllerNames)
  }

  const EmptyMarkup := Markup([], [])

  /** A directory entry; `children` is the listing order of the directory. */
  datatype Entry =
    | File(name: string, markup: Markup)
    | Dir(name: string, children: seq<Entry>)

  function Size(e: Entry): (n: nat)
    ensures n >= 1
  {
    match e
    case File(_, _) => 1
    case Dir(_, children) => 1 + SizeAll(children)
  }

  function SizeAll(es: seq<Entry>): (n: nat)
    ensures |es| > 0 ==> n > SizeAll(es[1..]) && n >= Size(es[0])
  {
    if |es| == 0 then 0 else Size(es[0]) + SizeAll(es[1..])
  }

  /** The first child of `children` called `name`. */
  function FindChild(children: seq<Entry>, name: string): (r: Option<Entry>)
    ensures r.Some? ==> r.value in children && r.value.name == name
    ensures r.None? ==> forall c :: c in children ==> c.name != name
  {
    if |children| == 0 then None
    else if children[0].name == name then Some(children[0])
    else FindChild(children[1..], name)
  }

  /** The entry at `p` below `e`, if there is one. */
  function Lookup(e: Entry, p: Path): Option<Entry>
  {
    if |p| == 0 then Some(e)
    else match e
      case File(_, _) => None
      case Dir(_, children) =>
        match FindChild(children, p[0])
        case None => None
        case Some(c) => Lookup(c, p[1..])
  }

  /** Last segment of a path (`split(path.sep).pop()`); "" for the empty path. */
  function Last(p: Path): string
  {
    if |p| == 0 then "" else p[|p| - 1]
  }

  /** A real directory never lists two entries under one name, at any depth. */
  ghost predicate WellFormed(e: Entry)
  {
    match e
    case File(_, _) => true
    case Dir(_, children) =>
      && (forall i, j :: 0 <= i < j < |children| ==> children[i].name != children[j].name)
      && (forall c :: c in children ==> WellFormed(c))
  }

  lemma {:induction false} FindChildDistinct(children: seq<Entry>, i: nat)
    requires i < |children|
    requires forall a, b :: 0 <= a < b < |children| ==> children[a].name != children[b].name
    ensures FindChild(children, children[i].name) == Some(children[i])
  {
    if i > 0 {
      assert children[0].name != children[i].name;
      FindChildDistinct(children[1..], i - 1);
    }
  }

  /** In a well-formed tree, the path of a directory followed by a child's name leads to that child. */
  lemma {:induction false} LookupChild(e: Entry, p: Path, i: nat)
    requires WellFormed(e)
    requires Lookup(e, p).Some? && Lookup(e, p).value.Dir? && i < |Lookup(e, p).value.children|
    ensures Lookup(e, p + [Lookup(e, p).value.children[i].name]) == Some(Lookup(e, p).value.children[i])
    decreases |p|
  {
    var x := Lookup(e, p).value.children[i].name;
    if |p| == 0 {
      FindChildDistinct(e.children, i);
      assert p + [x] == [x];
    } else {
      var c := FindChild(e.children, p[0]).value;
      LookupChild(c, p[1..], i);
      assert (p + [x])[1..] == p[1..] + [x];
    }
  }
}
