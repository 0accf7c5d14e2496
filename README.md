# Annotation core of the PDF viewer widget

This project models the annotation logic of the PDF viewer widget built by
`create_pdf_viewer_widget` in `widgets.py`. The model covers:

- the annotation-mode selector (`set_annotation_mode`);
- the hex colour parser (`hex_to_rgb`) and the normalisation of colour channels to [0, 1];
- the mapping of a click from rendered pixels to document coordinates;
- the fixed 40 by 10 highlight rectangle;
- the click dispatcher (`on_pdf_click`), which adds at most one annotation to the clicked page
  according to the mode;
- the listing of a page's text annotations (`display_annotations`).

Layout:

- `wrappers.dfy`: `Option` and `Result`.
- `colour.dfy` (module `Colour`): `hex_to_rgb` and the normalisation. `HexToRgb` first strips
  every leading `#` (`StripLeadingHashes`). It then cuts the fields at offsets 0, 2 and 4 the way
  Python slices a string (`Field`) and reads each field as Python's `int(field, 16)` does
  (`ParseField`). `ParseField` is proved equal to `PythonHexInt`, a separate definition of Python's reading of `int(s, 16)`: trim the whitespace, then an optional sign and hex digits. It leaves out a `0x` prefix, underscores between digits and non-ASCII digits; on a field of at most two ASCII characters none of these changes the result, because `int()` rejects `0x`, `_1` and `1_` as well. `FormatHex` writes channels back as `#RRGGBB`. It is the inverse used in the
  round-trip lemma.
- `geometry.dfy` (module `Geometry`): points, rectangles, `ToDocument` and `HighlightRect`.
- `annotations.dfy` (module `Annotations`): the annotation kinds and a page's annotations.
  `TextsOf` is the specification of the listing. `ListTexts` is the appending loop of
  `display_annotations`, proved against it.
- `viewer.dfy` (module `Viewer`): `Decide` is the pure specification of one click.
  The class `PdfViewer` holds the widget's fields `annotation_mode`, `annotation_color` and
  `scale_factor`, plus the pages' annotations. Its methods `SetAnnotationMode` and `OnClick`
  update those fields in place. `OnClick`'s postcondition ties the new pages to `Decide`.

Modelling choices:

- A mode is `Option<string>`. As in Python, a mode counts as set only when it is present and not
  empty. A set mode other than `"highlight"`, `"comment"` and `"text_note"` does nothing.
- A colour is `HexColour(string)` or `ChannelColour(seq<int>)`, the two cases the click handler
  tells apart with `isinstance(color, str)`. A colour argument counts as given only when it is
  present and not empty. Only a given colour replaces the stored one.
- The text dialog is a parameter of `OnClick` (`Prompt(ok, text)`). The message box after a
  text annotation is the out-parameter `message`.
- The exceptions that `on_pdf_click` catches are the `Failed` statuses. This covers a page index
  outside the document, a zero scale (Python raises on division by zero), no stored colour,
  and an unreadable hex field.
- The highlight is added before its colour is decoded (widgets.py:166 before 169-177).
  So a colour that cannot be decoded leaves a highlight in the library's default colour
  (`colour == None`) and a reported failure. So a failed colour leaves a partly applied
  annotation on the page, and the model keeps it.
- Comment and text-note modes add the same kind of annotation, a text annotation at the point
  (widgets.py:189 and 200). There is no separate note kind.
- No bounds check is made on the highlight rectangle, in the code or in the model.
- `scale_factor` is set to 1 at construction and is never assigned again: the zoom slider only
  re-renders. The model divides by the `scale` field. No method of the model changes it.
- Coordinates and normalised channels are exact `real`s, not floating-point numbers.

## Model

| member | source | states |
|---|---|---|
| Colour.StripLeadingHashesSpec | widgets.py:128 | `lstrip('#')` keeps a suffix of its input, removes only `#` characters, and leaves a string that does not start with `#` |
| Colour.Field | widgets.py:131 | the slice `[i:i+2]` is the two characters at `i` when they exist, the last character alone when only one remains, empty past the end, and never longer than two characters |
| Colour.ParseField | widgets.py:131 | `int(field, 16)` on a field of at most two characters yields a value in -15..255 when it succeeds |
| Colour.ShortFieldValues | widgets.py:131 | for every hex digit `d` and whitespace `w`, the fields `d`, `+d`, `-d`, `dw` and `wd` read as the digit's value, negated after a minus |
| Colour.ParseFieldIsPythonHexInt | widgets.py:131 | on every field of at most two characters the parser agrees with Python's reading of `int(s, 16)` without a `0x` prefix, underscores or non-ASCII digits: whitespace trimmed at both ends, an optional sign, at least one hex digit |
| Colour.ShortFieldForms | widgets.py:131 | a lone digit, a signed digit and a digit padded with whitespace are read as Python reads them; a lone sign and an empty field fail |
| Colour.ForeignCharRejected | widgets.py:131 | a field containing a character that is not a hex digit, a sign or whitespace fails to parse |
| Colour.ReadChannels | widgets.py:131 | reading fields 0, 2 and 4 gives three channels in -15..255, and fails when fewer than five characters remain |
| Colour.HexToRgb | widgets.py:126-131 | the decoded colour has three channels in -15..255; fewer than five characters after the `#`s always fail |
| Colour.FieldOfDigits | widgets.py:131 | a field cut from two hex digits reads as 16 times the first digit plus the second |
| Colour.ReadSixDigits | widgets.py:131 | six leading hex digits give the three channels 16·d1+d2, 16·d3+d4 and 16·d5+d6, whatever follows |
| Colour.SixDigitsDecode | widgets.py:126-131 | after the `#`s are stripped, six hex digits decode to their three byte values in 0..255 |
| Colour.StripHashesPrefix | widgets.py:128 | any number of leading `#`s is removed in front of a string that does not start with one |
| Colour.HexToRgbIgnoresTail | widgets.py:126-131 | any number of `#`s, six hex digits, then anything: the decoded channels depend on the six digits only |
| Colour.FormatHexRoundTrip | widgets.py:126-131 | decoding the `#RRGGBB` form of channels in 0..255 gives exactly those channels back |
| Colour.HexToRgbRejectsForeignChar | widgets.py:131 | a hex string with a character that is not a hex digit, a sign or whitespace in one of its three fields is rejected |
| Colour.Normalise | widgets.py:174 | one normalised channel per input channel, each exactly the channel divided by 255 (multiplying by 255 gives it back) |
| Colour.NormaliseInUnitInterval | widgets.py:174 | channels in 0..255 normalise into [0, 1] |
| Colour.NormalisePreservesOrder | widgets.py:174 | normalisation keeps the order between any two channels, in both directions |
| Colour.HighlightColour | widgets.py:169-174 | with no colour it fails; a tuple gives its channels each divided by 255; a string gives its three decoded channels each divided by 255 when it decodes as hex, and otherwise the decoding error |
| Colour.HexHighlightColourInUnitInterval | widgets.py:169-174 | a hex colour with six digits after its `#`s gives the byte values of those digits divided by 255, and every one lies in [0, 1] |
| Colour.PureRedExample | widgets.py:126-174 | `#FF0000` decodes to (255, 0, 0) and normalises to (1.0, 0.0, 0.0) |
| Colour.PureGreenExample | widgets.py:126-174 | `#00FF00` decodes to (0, 255, 0) and normalises to (0.0, 1.0, 0.0) |
| Geometry.ToDocument | widgets.py:157-160 | the document point exists exactly when the scale is not zero, and multiplying it by the scale gives back the click |
| Geometry.ToDocumentUnique | widgets.py:157-160 | the document point is the only point that scales back to the click |
| Geometry.HighlightRect | widgets.py:163-165 | the highlight rectangle is centred on the document point and is 40 wide and 10 high |
| Geometry.HighlightCoversClick | widgets.py:157-165 | the highlight contains the click's document point, and its centre scales back to the click |
| Geometry.ScaledClickExample | widgets.py:157-165 | a click at (100, 40) at scale 2 gives the point (50, 20) and the rectangle (30, 15)-(70, 25) |
| Annotations.TextsOfAppend | widgets.py:140-144 | the listing of two annotation sequences put together is the two listings put together |
| Annotations.TextsOfSnoc | widgets.py:142-144 | appending a text annotation adds its text at the end of the listing; any other kind adds nothing |
| Annotations.TextsOfMembership | widgets.py:142-144 | a string is listed if and only if some text annotation of the page carries it |
| Annotations.TextsOfPosition | widgets.py:142-144 | the text of each text annotation sits right after the texts of the annotations stored before it, so storage order is kept |
| Annotations.ListTexts | widgets.py:140-148 | the loop collects exactly the listing; a message is produced if and only if the listing is not empty, and it is the texts one per line |
| Viewer.Decide | widgets.py:150-206 | an annotation is added only when a mode is set, the page exists and the scale is not zero; a completed click always added one, and an added text annotation always completes |
| Viewer.DecideAsWritten | widgets.py:140-148 | as written, a click stores the same annotation as the intended handler; after a text annotation the listing raises and a failure is reported; every other status is unchanged |
| Viewer.TextClickAsWrittenFails | widgets.py:186-210 | a confirmed comment or text note is stored at the document point in both readings, but as written it ends in a reported failure, where the intended handler completes |
| Viewer.AddTo | widgets.py:166 | the page count is unchanged, every other page is unchanged, and the chosen page gets the annotation appended, if there is one |
| Viewer.NoModeNoAnnotation | widgets.py:151 | without a set mode a click adds nothing and reports nothing |
| Viewer.UnknownModeIgnored | widgets.py:163-206 | a mode other than the three known ones adds nothing |
| Viewer.TextClick | widgets.py:186-206 | in comment and text-note modes a text annotation is added if and only if the prompt was confirmed with a non-empty text; it carries that text at the click's document point |
| Viewer.CommentIsTextNote | widgets.py:186-206 | comment mode and text-note mode have the same effect on every click |
| Viewer.HighlightClick | widgets.py:163-177 | in highlight mode one highlight is always added, 40 by 10 and centred on the document point; it has the normalised colour and completes exactly when the colour decodes, and otherwise keeps the default colour |
| Viewer.GreenHighlightExample | widgets.py:157-177 | at scale 2, a click at (100, 40) with `#00FF00` adds the highlight (30, 15)-(70, 25) coloured (0.0, 1.0, 0.0) |
| Viewer.PdfViewer.constructor | widgets.py:30-32 | a new viewer has no mode, no colour and scale 1 |
| Viewer.PdfViewer.SetAnnotationMode | widgets.py:119-122 | the mode is always replaced, the colour only by a given colour, so the stored colour is never an empty one; nothing else changes |
| Viewer.PdfViewer.OnClick | widgets.py:150-214 | status and new pages are those `Decide` gives; mode, colour and scale are unchanged; after a text annotation the message lists the page's earlier texts followed by the new one; a coloured highlight never gets an empty list of channels, because the stored colour is never empty |

## Left out

- Rendering: `get_pixmap`, the `QImage`/`QPixmap` conversion, `update_pdf_pixmap`, `setPixmap` and `widget.update()`. These are calls into the PDF and GUI libraries.
- `zoom_pdf`: it only re-renders the pages at the slider's value and never assigns `scale_factor`. The initial render uses scale 0.5 while `scale_factor` is 1. The model does not claim that a rendered image matches the scale.
- `save_annotations`: the incremental save that keeps encryption is a PDF library call.
- Widget construction, layout, the metadata table and its lookups, the zoom slider's set-up.
- `PDFPageLabel`: its left-button filter and its click signal. The model starts at the handler.
- `DraggableLabel`: drag-and-drop plumbing that hands off to a `swapWidgets` method that is not part of this model.
- The dialogs and logging: the text prompt is a parameter, the message box an out-parameter, and a caught exception a `Failed` status.
- The PDF library's own objects. The model reads `page.annots`, `a.type` and `a.text` as the page's annotations in storage order, their kind and their text. That is what the code evidently means, but not what it does against the libraries it imports. In PyMuPDF `annots` is a method, so `for a in page.annots` raises a TypeError. In PyQt6 `QMessageBox.Ok` does not exist. So, as written, every confirmed comment or text note is added and then ends in the exception handler (see "## Findings"). Failures inside `add_highlight_annot`, `add_text_annot`, `set_colors` and `annot.update()` are not modelled.
- Viewer.HighlightClick: a highlight completes whenever its colour decodes, because `set_colors` never fails in the model. The PDF library may reject a colour that the model accepts: a signed hex field such as `#-F-F-F` gives channels below 0, channels outside 0..255 give values outside [0, 1], and the library may refuse a tuple that is not 1, 3 or 4 long.
- Colour.ParseField, Colour.ParseFieldIsPythonHexInt: the reference `PythonHexInt` has no `0x` prefix and no underscores, which cannot change the result on fields of at most two characters (`0x`, `_1` and `1_` are rejected by `int()` too). Python's `int()` also turns non-ASCII decimal digits (such as Arabic-Indic digits) into ASCII digits. The model rejects them.
- Colour.HighlightColour: tuple channels are integers. Python would also accept floats, and the PDF library decides what a tuple that is not three long does.
- Viewer.PdfViewer.OnClick: after a text annotation it gives the intended listing and an `Annotated` status. As written, the listing raises and the handler reports the caught TypeError. That reading is `DecideAsWritten`, which `OnClick` does not follow.
- Viewer.PdfViewer.OnClick: floating-point rounding of the division and of the normalisation is not modelled; both are exact reals.
- Modes that are not strings, for instance `True`: the model's mode is a string or nothing.

## Findings

| source | as written | input that shows it | evidently intended | confidence | as-written member | corrected member |
|---|---|---|---|---|---|---|
| widgets.py:142-148 | `display_annotations` iterates `page.annots` as an attribute and passes `QMessageBox.Ok`. In PyMuPDF `annots` is a method, and PyQt6 has no `QMessageBox.Ok`. | comment mode, a click on an existing page, the prompt confirmed with the text "note" | the texts of the page's text annotations shown one per line, and the click completing | not executed; relies on the documented PyMuPDF and PyQt6 interfaces, which are not part of this model | Viewer.TextClickAsWrittenFails (on Viewer.DecideAsWritten) | Viewer.TextClick, Annotations.ListTexts and Viewer.PdfViewer.OnClick (on Viewer.Decide) |
