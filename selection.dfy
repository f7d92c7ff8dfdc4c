/**
 * Validation of the user's input (`checkAvailabilitySlides` and
 * `checkDestinationPath` in utils/actions.js). Both report a problem on the
 * console and return `undefined`/`null`; here that is `None` or an error
 * value naming the message.
 */
module Selection {
  import opened Wrappers
  import opened Text
  import opened Lists

  /** The ids typed that are not slides of the presentation. */
  function Invalid(tokens: seq<string>, originalSlides: seq<string>): set<string>
  {
    set t | t in tokens && t !in originalSlides
  }

  /** The requested ids that are slides of the presentation, in the order typed. */
  function Available(tokens: seq<string>, originalSlides: seq<string>): (r: seq<string>)
    ensures forall t :: t in r <==> t in tokens && t in originalSlides
  {
    Without(tokens, Invalid(tokens, originalSlides))
  }

  /** A valid id typed several times is kept as often as it was typed; an invalid one never. */
  lemma AvailableKeepsRepeats(tokens: seq<string>, originalSlides: seq<string>, t: string)
    ensures multiset(Available(tokens, originalSlides))[t] == if t in originalSlides then multiset(tokens)[t] else 0
  {
    WithoutCounts(tokens, Invalid(tokens, originalSlides), t);
  }

  /** Two valid ids come out in the order in which they were first typed. */
  lemma AvailableKeepsOrder(tokens: seq<string>, originalSlides: seq<string>, x: string, y: string)
    requires x in Available(tokens, originalSlides) && y in Available(tokens, originalSlides)
    requires IndexOf(Available(tokens, originalSlides), x) < IndexOf(Available(tokens, originalSlides), y)
    ensures IndexOf(tokens, x) < IndexOf(tokens, y)
  {
    WithoutKeepsOrder(tokens, Invalid(tokens, originalSlides), x, y);
  }

  /**
   * `checkAvailabilitySlides`: the space-separated ids of `selectedSlides`
   * that are slides of the presentation; `None` for an empty answer or when
   * no id is valid.
   */
  method CheckAvailabilitySlides(selectedSlides: string, originalSlides: seq<string>) returns (r: Option<seq<string>>)
    ensures selectedSlides == "" ==> r.None?
    ensures selectedSlides != "" ==>
              var checked := Available(Split(selectedSlides, ' '), originalSlides);
              r == if |checked| > 0 then Some(checked) else None
  {
    var checkedSlides := [];
    if selectedSlides == "" {
      return None;
    }
    var selectedSlidesArray := Split(selectedSlides, ' ');
    ghost var invalid := Invalid(selectedSlidesArray, originalSlides);
    for i := 0 to |selectedSlidesArray|
      invariant checkedSlides == Without(selectedSlidesArray[..i], invalid)
    {
      assert selectedSlidesArray[..i + 1][..i] == selectedSlidesArray[..i];
      if selectedSlidesArray[i] !in originalSlides {
        continue;
      }
      checkedSlides := checkedSlides + [selectedSlidesArray[i]];
    }
    assert selectedSlidesArray[..|selectedSlidesArray|] == selectedSlidesArray;
    r := if |checkedSlides| > 0 then Some(checkedSlides) else None;
  }

  /** The three console messages of `checkDestinationPath`. */
  datatype PathError = NotEntered | DoesNotExist | NotAbsolute

  /** `path.isAbsolute` for POSIX paths. */
  predicate IsAbsolute(p: string)
  {
    |p| > 0 && p[0] == '/'
  }

  /**
   * `checkDestinationPath`: the answer itself when it is non-empty, exists
   * and is absolute, checked in that order.
   */
  function CheckDestinationPath(destinationPath: string, existing: set<string>): (r: Result<string, PathError>)
    ensures r.Ok? <==> destinationPath != "" && destinationPath in existing && IsAbsolute(destinationPath)
    ensures r.Ok? ==> r.value == destinationPath
    ensures r == Err(NotEntered) <==> destinationPath == ""
    ensures r == Err(DoesNotExist) <==> destinationPath != "" && destinationPath !in existing
    ensures r == Err(NotAbsolute) <==> destinationPath in existing && destinationPath != "" && !IsAbsolute(destinationPath)
  {
    if destinationPath == "" then Err(NotEntered)
    else if destinationPath !in existing then Err(DoesNotExist)
    else if !IsAbsolute(destinationPath) then Err(NotAbsolute)
    else Ok(destinationPath)
  }
}
