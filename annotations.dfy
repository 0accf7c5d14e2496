/**
 * The annotations a page holds and the listing of their texts that the viewer shows
 * after a comment or a text note is added (`display_annotations`).
 */
module Annotations {
  import opened Wrappers
  import opened Geometry

  /**
   * One annotation of a page: a highlight over a rectangle (its colour `None` while the
   * PDF library's default is in force), a text annotation anchored at a point, or an
   * annotation of any other kind the document already held.
   */
  datatype Annot =
    | Highlight(rect: Rect, colour: Option<seq<real>>)
    | Text(at: Point, text: string)
    | Other(kind: string)

  /** A page and its annotations in storage order. */
  datatype Page = Page(annots: seq<Annot>)

  /** The texts of the text annotations of `annots`, in order; other kinds are skipped. */
  function TextsOf(annots: seq<Annot>): (texts: seq<string>)
  {
    if annots == [] then []
    else (if annots[0].Text? then [annots[0].text] else []) + TextsOf(annots[1..])
  }

  /** `"\n".join(texts)`. */
  function JoinLines(texts: seq<string>): (s: string)
  {
    if texts == [] then ""
    else if |texts| == 1 then texts[0]
    else texts[0] + "\n" + JoinLines(texts[1..])
  }

  /** Listing distributes over concatenation of annotation sequences. */
  lemma {:induction false} TextsOfAppend(a: seq<Annot>, b: seq<Annot>)
    ensures TextsOf(a + b) == TextsOf(a) + TextsOf(b)
  {
    if a == [] {
      assert a + b == b;
    } else {
      assert (a + b)[1..] == a[1..] + b;
      TextsOfAppend(a[1..], b);
    }
  }

  /** Appending a text annotation adds its text at the end of the listing; any other kind adds nothing. */
  lemma TextsOfSnoc(a: seq<Annot>, x: Annot)
    ensures TextsOf(a + [x]) == TextsOf(a) + (if x.Text? then [x.text] else [])
  {
    TextsOfAppend(a, [x]);
  }

  /** `a` is a text annotation carrying `t`. */
  predicate Carries(a: Annot, t: string) {
    a.Text? && a.text == t
  }

  /** A string is listed exactly when some text annotation carries it. */
  lemma {:induction false} TextsOfMembership(annots: seq<Annot>, t: string)
    ensures t in TextsOf(annots) <==> exists i :: 0 <= i < |annots| && Carries(annots[i], t)
  {
    if annots != [] {
      TextsOfMembership(annots[1..], t);
      if exists i :: 0 <= i < |annots[1..]| && Carries(annots[1..][i], t) {
        var i :| 0 <= i < |annots[1..]| && Carries(annots[1..][i], t);
        assert annots[i + 1] == annots[1..][i];
      }
      if exists i :: 0 <= i < |annots| && Carries(annots[i], t) {
        var i :| 0 <= i < |annots| && Carries(annots[i], t);
        if i > 0 {
          assert annots[1..][i - 1] == annots[i];
        }
      }
    }
  }

  /**
   * The text of the text annotation at index `i` is listed right after the texts of the
   * annotations stored before it, so the listing keeps storage order.
   */
  lemma TextsOfPosition(annots: seq<Annot>, i: nat)
    requires i < |annots| && annots[i].Text?
    ensures |TextsOf(annots[..i])| < |TextsOf(annots)|
    ensures TextsOf(annots)[|TextsOf(annots[..i])|] == annots[i].text
  {
    assert annots == annots[..i] + [annots[i]] + annots[i + 1..];
    TextsOfAppend(annots[..i] + [annots[i]], annots[i + 1..]);
    TextsOfSnoc(annots[..i], annots[i]);
  }

  /**
   * `display_annotations`: collect the text of every text annotation in storage order;
   * a message, the texts one per line, is shown only when there is at least one.
   */
  method ListTexts(annots: seq<Annot>) returns (texts: seq<string>, message: Option<string>)
    ensures texts == TextsOf(annots)
    ensures message == if texts == [] then None else Some(JoinLines(texts))
  {
    texts := [];
    var i := 0;
    while i < |annots|
      invariant 0 <= i <= |annots|
      invariant texts == TextsOf(annots[..i])
    {
      assert annots[..i + 1] == annots[..i] + [annots[i]];
      TextsOfSnoc(annots[..i], annots[i]);
      if annots[i].Text? {
        texts := texts + [annots[i].text];
      }
      i := i + 1;
    }
    assert annots[..i] == annots;
    message := if texts == [] then None else Some(JoinLines(texts));
  }
}
