/** rotate_pdf.py: choosing the signed rotation from the --dir option, and
    rotating every page of a document by it. A page is abstract: what it shows
    and the clockwise rotation it has accumulated, in degrees. */
module RotatePdf {
  import opened Cli

  const InvalidDirectionMessage := "Invalid direction. Options are cw or ccw."

  datatype Page = Page(content: nat, rotation: int)

  /** The rotation passed to open_and_rotate_pdf: the angle itself when no
      direction or "cw" is given, its negation for "ccw"; any other direction
      (the comparison is case-sensitive) exits with status 1 before the document
      is touched. */
  function SelectRotation(direction: Option<string>, angle: int): (r: Result<int>)
    ensures direction == None || direction == Some("cw") ==> r == Ok(angle)
    ensures direction == Some("ccw") ==> r == Ok(-angle)
    ensures r.Err? <==> direction.Some? && direction.value != "cw" && direction.value != "ccw"
    ensures r.Err? ==> r.error == SystemExit(1, InvalidDirectionMessage)
  {
    if direction.None? || direction.value == "cw" then Ok(angle)
    else if direction.value == "ccw" then Ok(-angle)
    else Err(SystemExit(1, InvalidDirectionMessage))
  }

  /** The same angle clockwise and counter-clockwise gives opposite rotations. */
  lemma DirectionsOpposite(angle: int)
    ensures SelectRotation(Some("cw"), angle).value == -SelectRotation(Some("ccw"), angle).value
  {
  }

  /** "CW" is not "cw": upper case is rejected. */
  lemma DirectionIsCaseSensitive(angle: int)
    ensures SelectRotation(Some("CW"), angle) == Err(SystemExit(1, InvalidDirectionMessage))
  {
    assert "CW" != "cw" by { assert "CW"[0] != "cw"[0]; }
    assert "CW" != "ccw";
  }

  /** page.rotateClockwise(rotation): the rotation accumulates on the page. */
  function RotatePage(p: Page, rotation: int): (r: Page)
    ensures r.content == p.content && r.rotation == p.rotation + rotation
  {
    p.(rotation := p.rotation + rotation)
  }

  /** Every page rotated by the same amount, in index order. */
  function Rotated(pages: seq<Page>, rotation: int): (r: seq<Page>)
    ensures |r| == |pages|
    ensures forall i :: 0 <= i < |pages| ==>
              r[i].content == pages[i].content && r[i].rotation == pages[i].rotation + rotation
  {
    if pages == [] then [] else [RotatePage(pages[0], rotation)] + Rotated(pages[1..], rotation)
  }

  /** Rotating twice is rotating once by the sum. */
  lemma RotatedTwice(pages: seq<Page>, a: int, b: int)
    ensures Rotated(Rotated(pages, a), b) == Rotated(pages, a + b)
  {
    var lhs, rhs := Rotated(Rotated(pages, a), b), Rotated(pages, a + b);
    assert |lhs| == |rhs|;
    forall i | 0 <= i < |lhs| ensures lhs[i] == rhs[i] {
    }
  }

  /** Running the script clockwise and then counter-clockwise with the same
      angle gives back the original pages. */
  lemma CwThenCcwRestores(pages: seq<Page>, angle: int)
    ensures Rotated(Rotated(pages, SelectRotation(Some("cw"), angle).value),
                    SelectRotation(Some("ccw"), angle).value) == pages
  {
    RotatedTwice(pages, angle, -angle);
    var r := Rotated(pages, 0);
    assert |r| == |pages|;
    forall i | 0 <= i < |r| ensures r[i] == pages[i] {
    }
  }

  /** open_and_rotate_pdf: each page, in index order, is rotated and appended to
      the output. */
  method OpenAndRotatePdf(pages: seq<Page>, rotation: int) returns (written: seq<Page>)
    ensures |written| == |pages|
    ensures forall i :: 0 <= i < |pages| ==>
              written[i].content == pages[i].content && written[i].rotation == pages[i].rotation + rotation
    ensures written == Rotated(pages, rotation)
  {
    written := [];
    for pageNum := 0 to |pages|
      invariant |written| == pageNum
      invariant forall i :: 0 <= i < pageNum ==> written[i] == RotatePage(pages[i], rotation)
    {
      var page := RotatePage(pages[pageNum], rotation);
      written := written + [page];
    }
    var spec := Rotated(pages, rotation);
    assert |spec| == |written|;
    forall i | 0 <= i < |written| ensures written[i] == spec[i] {
    }
  }

  /** The script: with a valid direction every page is rotated by the selected
      amount and the result written; otherwise nothing is written. */
  method RotateMain(direction: Option<string>, angle: int, pages: seq<Page>) returns (r: Result<seq<Page>>)
    ensures r.Err? <==> SelectRotation(direction, angle).Err?
    ensures r.Err? ==> r.error == SystemExit(1, InvalidDirectionMessage)
    ensures r.Ok? ==> r.value == Rotated(pages, SelectRotation(direction, angle).value)
  {
    if direction.None? || direction.value == "cw" {
      var written := OpenAndRotatePdf(pages, angle);
      r := Ok(written);
    } else if direction.value == "ccw" {
      var written := OpenAndRotatePdf(pages, -angle);
      r := Ok(written);
    } else {
      r := Err(SystemExit(1, InvalidDirectionMessage));
    }
  }
}
