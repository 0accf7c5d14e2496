/**
 * The annotation state of the PDF viewer widget: the current annotation mode and colour,
 * the scale factor clicks are divided by, and the annotations of every page; plus the
 * click dispatcher that adds an annotation according to the mode.
 */
module Viewer {
  import opened Wrappers
  import opened Colour
  import opened Geometry
  import opened Annotations

  const HighlightMode: string := "highlight"
  const CommentMode: string := "comment"
  const TextNoteMode: string := "text_note"

  /** The stored mode counts as set (Python truthiness): present and not the empty string. */
  predicate ModeSet(mode: Option<string>) {
    mode.Some? && mode.value != ""
  }

  /** A colour argument counts as given (Python truthiness): present and not empty. */
  predicate ColourGiven(c: Option<ColourSetting>) {
    match c
    case None => false
    case Some(HexColour(t)) => t != ""
    case Some(ChannelColour(cs)) => cs != []
  }

  /** The answer to the text prompt: whether it was confirmed, and what was typed. */
  datatype Prompt = Prompt(ok: bool, text: string)

  /**
   * Failures the click handler catches and reports. `ListingFailed` is the exception the
   * listing of a page's texts raises as the code is written (see DecideAsWritten).
   */
  datatype ClickError = PageNotFound | ZeroScale | ColourFailed(reason: ColourError) | ListingFailed

  /** How a click ended: nothing to do, an annotation completed, or a caught failure. */
  datatype ClickStatus = Ignored | Annotated | Failed(error: ClickError)

  /** What one click does: the annotation appended to the clicked page, if any, and its status. */
  datatype ClickOutcome = ClickOutcome(added: Option<Annot>, status: ClickStatus)

  /**
   * The effect of a click at pixel `click` on page `pageIndex` of `pageCount` pages. In
   * highlight mode the highlight is added before its colour is decoded, so a colour that
   * cannot be decoded leaves a highlight in the library's default colour and a failure.
   */
  function Decide(mode: Option<string>, colour: Option<ColourSetting>, scale: real,
                  pageCount: nat, pageIndex: nat, click: Point, prompt: Prompt): (r: ClickOutcome)
    ensures r.added.Some? ==> ModeSet(mode) && pageIndex < pageCount && scale != 0.0
    ensures r.status == Annotated ==> r.added.Some?
    ensures r.added.Some? && r.added.value.Text? ==> r.status == Annotated
  {
    if !ModeSet(mode) then ClickOutcome(None, Ignored)
    else if pageIndex >= pageCount then ClickOutcome(None, Failed(PageNotFound))
    else if scale == 0.0 then ClickOutcome(None, Failed(ZeroScale))
    else
      var p := ToDocument(click, scale).value;
      if mode.value == HighlightMode then
        match HighlightColour(colour)
        case Success(rgb) => ClickOutcome(Some(Highlight(HighlightRect(p), Some(rgb))), Annotated)
        case Failure(e) => ClickOutcome(Some(Highlight(HighlightRect(p), None)), Failed(ColourFailed(e)))
      else if mode.value == CommentMode || mode.value == TextNoteMode then
        if prompt.ok && prompt.text != "" then ClickOutcome(Some(Text(p, prompt.text)), Annotated)
        else ClickOutcome(None, Ignored)
      else ClickOutcome(None, Ignored)
  }

  /**
   * A click as the code is written against the PDF and GUI libraries it imports. The text
   * annotation is added, but listing the page's texts then raises: the page's annotations
   * are read as an attribute although the library offers them through a method, and the
   * message box is given a button name the GUI library does not define. So the handler
   * reports a failure instead of the listing.
   */
  function DecideAsWritten(mode: Option<string>, colour: Option<ColourSetting>, scale: real,
                           pageCount: nat, pageIndex: nat, click: Point, prompt: Prompt): (r: ClickOutcome)
    ensures r.added == Decide(mode, colour, scale, pageCount, pageIndex, click, prompt).added
    ensures r.added.Some? && r.added.value.Text? ==> r.status == Failed(ListingFailed)
    ensures !(r.added.Some? && r.added.value.Text?) ==>
      r.status == Decide(mode, colour, scale, pageCount, pageIndex, click, prompt).status
  {
    var d := Decide(mode, colour, scale, pageCount, pageIndex, click, prompt);
    if d.added.Some? && d.added.value.Text? then ClickOutcome(d.added, Failed(ListingFailed)) else d
  }

  /**
   * The discrepancy: a confirmed comment or text note is stored in both readings, but as
   * written it ends in a reported failure, while the intended handler completes.
   */
  lemma TextClickAsWrittenFails(m: string, colour: Option<ColourSetting>, scale: real,
                                pageCount: nat, pageIndex: nat, click: Point, text: string)
    requires m == CommentMode || m == TextNoteMode
    requires pageIndex < pageCount && scale != 0.0 && text != ""
    ensures var w := DecideAsWritten(Some(m), colour, scale, pageCount, pageIndex, click, Prompt(true, text));
      var d := Decide(Some(m), colour, scale, pageCount, pageIndex, click, Prompt(true, text));
      w.added == d.added && w.added == Some(Text(ToDocument(click, scale).value, text)) &&
      w.status == Failed(ListingFailed) && d.status == Annotated
  {
  }

  /** `pages` with `a`, when present, appended to the annotations of page `i`. */
  function AddTo(pages: seq<Page>, i: nat, a: Option<Annot>): (r: seq<Page>)
    requires a.Some? ==> i < |pages|
    ensures |r| == |pages|
    ensures forall j :: 0 <= j < |pages| && j != i ==> r[j] == pages[j]
    ensures i < |pages| ==> r[i].annots == pages[i].annots + (if a.Some? then [a.value] else [])
  {
    match a
    case None => pages
    case Some(x) => pages[i := Page(pages[i].annots + [x])]
  }

  /** Without a mode, a click adds nothing anywhere and reports nothing. */
  lemma NoModeNoAnnotation(mode: Option<string>, colour: Option<ColourSetting>, scale: real,
                           pageCount: nat, pageIndex: nat, click: Point, prompt: Prompt)
    requires !ModeSet(mode)
    ensures Decide(mode, colour, scale, pageCount, pageIndex, click, prompt) == ClickOutcome(None, Ignored)
  {
  }

  /** A mode other than the three known ones does nothing either. */
  lemma UnknownModeIgnored(mode: Option<string>, colour: Option<ColourSetting>, scale: real,
                           pageCount: nat, pageIndex: nat, click: Point, prompt: Prompt)
    requires mode.Some? && mode.value !in {HighlightMode, CommentMode, TextNoteMode}
    ensures Decide(mode, colour, scale, pageCount, pageIndex, click, prompt).added == None
  {
  }

  /**
   * In comment and text-note modes exactly one text annotation with the typed text is added
   * at the click's document point, and only when the prompt was confirmed with a non-empty text.
   */
  lemma TextClick(m: string, colour: Option<ColourSetting>, scale: real,
                  pageCount: nat, pageIndex: nat, click: Point, prompt: Prompt)
    requires m == CommentMode || m == TextNoteMode
    requires pageIndex < pageCount && scale != 0.0
    ensures var r := Decide(Some(m), colour, scale, pageCount, pageIndex, click, prompt);
      (r.added.Some? <==> prompt.ok && prompt.text != "") &&
      (r.added.Some? ==> r.added.value.Text? && r.added.value.text == prompt.text &&
                         r.added.value.at.x * scale == click.x && r.added.value.at.y * scale == click.y)
  {
  }

  /** Comment mode and text-note mode behave identically. */
  lemma CommentIsTextNote(colour: Option<ColourSetting>, scale: real,
                          pageCount: nat, pageIndex: nat, click: Point, prompt: Prompt)
    ensures Decide(Some(CommentMode), colour, scale, pageCount, pageIndex, click, prompt)
         == Decide(Some(TextNoteMode), colour, scale, pageCount, pageIndex, click, prompt)
  {
  }

  /**
   * In highlight mode one highlight is added whatever the colour: a 40 by 10 rectangle
   * centred on the click's document point, coloured with the normalised colour when it
   * decodes and left in the default colour (with a failure reported) when it does not.
   */
  lemma HighlightClick(colour: Option<ColourSetting>, scale: real,
                       pageCount: nat, pageIndex: nat, click: Point, prompt: Prompt)
    requires pageIndex < pageCount && scale != 0.0
    ensures var r := Decide(Some(HighlightMode), colour, scale, pageCount, pageIndex, click, prompt);
      r.added.Some? && r.added.value.Highlight? &&
      r.added.value.rect.Centre().x * scale == click.x && r.added.value.rect.Centre().y * scale == click.y &&
      r.added.value.rect.Width() == 40.0 && r.added.value.rect.Height() == 10.0 &&
      (r.status == Annotated <==> HighlightColour(colour).Success?) &&
      r.added.value.colour == (if HighlightColour(colour).Success? then Some(HighlightColour(colour).value) else None)
  {
  }

  /** Three pages at scale 2, a click at (100, 40) in highlight mode with "#00FF00". */
  lemma GreenHighlightExample(prompt: Prompt)
    ensures Decide(Some(HighlightMode), Some(HexColour("#00FF00")), 2.0, 3, 0, Point(100.0, 40.0), prompt)
         == ClickOutcome(Some(Highlight(Rect(30.0, 15.0, 70.0, 25.0), Some([0.0, 1.0, 0.0]))), Annotated)
  {
    PureGreenExample();
    ScaledClickExample();
  }

  /** The viewer widget's annotation state. */
  class PdfViewer {
    var mode: Option<string>
    var colour: Option<ColourSetting>
    var scale: real
    var pages: seq<Page>

    /**
     * The stored colour is never an empty one: only a given colour replaces it. So a
     * coloured highlight never receives an empty list of channels.
     */
    ghost predicate Valid()
      reads this
    {
      colour.None? || ColourGiven(colour)
    }

    /** A new viewer has no mode, no colour and scale 1 over the document's pages. */
    constructor (pages: seq<Page>)
      ensures Valid()
      ensures this.pages == pages && mode == None && colour == None && scale == 1.0
    {
      this.pages := pages;
      mode := None;
      colour := None;
      scale := 1.0;
    }

    /** `set_annotation_mode`: the mode is always replaced, the colour only by a given one. */
    method SetAnnotationMode(m: Option<string>, c: Option<ColourSetting>)
      requires Valid()
      modifies this
      ensures Valid()
      ensures mode == m
      ensures colour == if ColourGiven(c) then c else old(colour)
      ensures scale == old(scale) && pages == old(pages)
    {
      mode := m;
      if ColourGiven(c) {
        colour := c;
      }
    }

    /**
     * `on_pdf_click`: a click at pixel `click` on page `pageIndex`. `prompt` is what the
     * text dialog returns in comment and text-note modes. `message` is the listing of the
     * page's texts shown after a text annotation is added.
     */
    method OnClick(pageIndex: nat, click: Point, prompt: Prompt) returns (status: ClickStatus, message: Option<string>)
      requires Valid()
      modifies this
      ensures Valid()
      ensures mode == old(mode) && colour == old(colour) && scale == old(scale)
      ensures var d := Decide(mode, colour, scale, |old(pages)|, pageIndex, click, prompt);
        status == d.status && pages == AddTo(old(pages), pageIndex, d.added) &&
        (message.Some? <==> d.added.Some? && d.added.value.Text?) &&
        (d.added.Some? && d.added.value.Highlight? && d.added.value.colour.Some? ==> d.added.value.colour.value != [])
      ensures message.Some? ==>
        message == Some(JoinLines(TextsOf(old(pages)[pageIndex].annots) + [prompt.text]))
    {
      status, message := Ignored, None;
      if !ModeSet(mode) {
        return;
      }
      if pageIndex >= |pages| {
        status := Failed(PageNotFound);
        return;
      }
      if scale == 0.0 {
        status := Failed(ZeroScale);
        return;
      }
      var point := Point(click.x / scale, click.y / scale);
      if mode.value == HighlightMode {
        var rect := HighlightRect(point);
        var before := pages[pageIndex].annots;
        pages := pages[pageIndex := Page(before + [Highlight(rect, None)])];
        var rgb: seq<int>;
        match colour {
          case None =>
            status := Failed(ColourFailed(NoColour));
            return;
          case Some(HexColour(t)) =>
            var parsed := HexToRgb(t);
            if parsed.Failure? {
              status := Failed(ColourFailed(parsed.error));
              return;
            }
            rgb := parsed.value;
          case Some(ChannelColour(cs)) =>
            rgb := cs;
        }
        pages := pages[pageIndex := Page(before + [Highlight(rect, Some(Normalise(rgb)))])];
        status := Annotated;
      } else if mode.value == CommentMode || mode.value == TextNoteMode {
        if prompt.ok && prompt.text != "" {
          var before := pages[pageIndex].annots;
          var after := before + [Text(point, prompt.text)];
          pages := pages[pageIndex := Page(after)];
          var texts;
          texts, message := ListTexts(after);
          TextsOfSnoc(before, Text(point, prompt.text));
          status := Annotated;
        }
      }
    }
  }
}
