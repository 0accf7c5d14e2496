/**
 * Colour handling of the viewer: the hex-colour parser (`hex_to_rgb`, which relies on
 * Python's `int(field, 16)`) and the normalisation of 0..255 channels to the unit interval.
 */
module Colour {
  import opened Wrappers

  /** The colour stored by the viewer: a hex string such as "#FF0000", or a tuple of channels. */
  datatype ColourSetting = HexColour(text: string) | ChannelColour(channels: seq<int>)

  /** Why a colour could not be turned into channels: no colour stored, or hex field `index` unreadable. */
  datatype ColourError = NoColour | BadField(index: nat)

  predicate IsHexDigit(c: char) {
    '0' <= c <= '9' || 'a' <= c <= 'f' || 'A' <= c <= 'F'
  }

  predicate AllHexDigits(s: string) {
    forall i :: 0 <= i < |s| ==> IsHexDigit(s[i])
  }

  /**
   * The characters `int()` skips around its argument: the six ASCII whitespace characters
   * and the non-ASCII whitespace characters. U+001C..U+001F count as whitespace for
   * `str.isspace`, but `int()` keeps every ASCII character as it is and then skips only
   * the six, so those four are not skipped.
   */
  predicate IsSpace(c: char) {
    c == ' ' || '\t' <= c <= '\r' || c == '\U{85}' || c == '\U{a0}' ||
    c == '\U{1680}' || '\U{2000}' <= c <= '\U{200a}' || c == '\U{2028}' || c == '\U{2029}' ||
    c == '\U{202f}' || c == '\U{205f}' || c == '\U{3000}'
  }

  function DigitValue(c: char): (v: nat)
    requires IsHexDigit(c)
    ensures v < 16
  {
    if '0' <= c <= '9' then c as int - '0' as int
    else if 'a' <= c <= 'f' then c as int - 'a' as int + 10
    else c as int - 'A' as int + 10
  }

  /** Upper-case hex digit of a value below 16; the inverse of DigitValue. */
  function HexDigit(v: nat): (c: char)
    requires v < 16
    ensures IsHexDigit(c) && DigitValue(c) == v
  {
    if v < 10 then ('0' as int + v) as char else ('A' as int + v - 10) as char
  }

  /** `s.lstrip('#')`; StripLeadingHashesSpec states what is removed. */
  function StripLeadingHashes(s: string): (r: string)
    ensures |r| <= |s|
  {
    if s != [] && s[0] == '#' then StripLeadingHashes(s[1..]) else s
  }

  /** Every leading '#' is removed, and nothing else: what remains is a suffix not starting with '#'. */
  lemma {:induction false} StripLeadingHashesSpec(s: string)
    ensures var r := StripLeadingHashes(s);
      r == s[|s| - |r|..] &&
      (forall i :: 0 <= i < |s| - |r| ==> s[i] == '#') &&
      (r == [] || r[0] != '#')
  {
    if s != [] && s[0] == '#' {
      StripLeadingHashesSpec(s[1..]);
    }
  }

  /** The slice `s[i:i+2]`, clipped to the string as Python clips it. */
  function Field(s: string, i: nat): (f: string)
    ensures |f| <= 2
    ensures i + 2 <= |s| ==> f == s[i..i + 2]
    ensures i < |s| < i + 2 ==> f == s[i..]
    ensures |s| <= i ==> f == []
  {
    var lo := if i <= |s| then i else |s|;
    var hi := if i + 2 <= |s| then i + 2 else |s|;
    s[lo..hi]
  }

  /**
   * `int(f, 16)` for a field of at most two characters, as Python reads it: surrounding
   * whitespace is dropped, then an optional sign and at least one hex digit must remain.
   * (Two characters leave no room for the "0x" prefix or the underscores Python also allows.)
   */
  function ParseField(f: string): (r: Option<int>)
    requires |f| <= 2
    ensures r.Some? ==> -15 <= r.value <= 255
  {
    if |f| == 0 then None
    else if |f| == 1 then
      if IsHexDigit(f[0]) then Some(DigitValue(f[0])) else None
    else if IsHexDigit(f[0]) && IsHexDigit(f[1]) then Some(16 * DigitValue(f[0]) + DigitValue(f[1]))
    else if IsHexDigit(f[0]) && IsSpace(f[1]) then Some(DigitValue(f[0]))
    else if IsSpace(f[0]) && IsHexDigit(f[1]) then Some(DigitValue(f[1]))
    else if f[0] == '+' && IsHexDigit(f[1]) then Some(DigitValue(f[1]))
    else if f[0] == '-' && IsHexDigit(f[1]) then Some(-(DigitValue(f[1]) as int))
    else None
  }

  /** `hex_to_rgb`: strip the leading '#'s, then read the three channels. */
  function HexToRgb(s: string): (r: Result<seq<int>, ColourError>)
    ensures r.Success? ==> |r.value| == 3
    ensures r.Success? ==> -15 <= r.value[0] <= 255 && -15 <= r.value[1] <= 255 && -15 <= r.value[2] <= 255
    ensures |StripLeadingHashes(s)| <= 4 ==> r.Failure?
  {
    ReadChannels(StripLeadingHashes(s))
  }

  /** The fields at offsets 0, 2 and 4 of `h`, read in that order; the first unreadable one is reported. */
  function ReadChannels(h: string): (r: Result<seq<int>, ColourError>)
    ensures r.Success? ==> |r.value| == 3
    ensures r.Success? ==> -15 <= r.value[0] <= 255 && -15 <= r.value[1] <= 255 && -15 <= r.value[2] <= 255
    ensures |h| <= 4 ==> r.Failure?
  {
    match ParseField(Field(h, 0))
    case None => Failure(BadField(0))
    case Some(red) =>
      match ParseField(Field(h, 2))
      case None => Failure(BadField(1))
      case Some(green) =>
        match ParseField(Field(h, 4))
        case None => Failure(BadField(2))
        case Some(blue) => Success([red, green, blue])
  }

  /** `[c / 255.0 for c in color]`, over exact reals. */
  function Normalise(cs: seq<int>): (r: seq<real>)
    ensures |r| == |cs|
    ensures forall i :: 0 <= i < |cs| ==> r[i] * 255.0 == cs[i] as real
  {
    seq(|cs|, i requires 0 <= i < |cs| => cs[i] as real / 255.0)
  }

  /** The colour a highlight receives: a string is decoded as hex, a tuple is used as it is. */
  function HighlightColour(c: Option<ColourSetting>): (r: Result<seq<real>, ColourError>)
    ensures c.None? ==> r == Failure(NoColour)
    ensures c.Some? && c.value.ChannelColour? ==> r == Success(Normalise(c.value.channels))
    ensures c.Some? && c.value.HexColour? ==>
      (r.Success? <==> HexToRgb(c.value.text).Success?) && (r.Success? ==> |r.value| == 3)
    ensures c.Some? && c.value.HexColour? && HexToRgb(c.value.text).Success? ==>
      r == Success(Normalise(HexToRgb(c.value.text).value))
    ensures c.Some? && c.value.HexColour? && HexToRgb(c.value.text).Failure? ==>
      r == Failure(HexToRgb(c.value.text).error)
  {
    match c
    case None => Failure(NoColour)
    case Some(HexColour(t)) =>
      (match HexToRgb(t)
       case Failure(e) => Failure(e)
       case Success(rgb) => Success(Normalise(rgb)))
    case Some(ChannelColour(cs)) => Success(Normalise(cs))
  }

  /** `h` begins with six hex digits. */
  predicate StartsWithSixHexDigits(h: string) {
    |h| >= 6 && forall i :: 0 <= i < 6 ==> IsHexDigit(h[i])
  }

  /** Channel values written by the first six hex digits of `h`, two digits per channel. */
  function SixDigitChannels(h: string): (rgb: seq<int>)
    requires StartsWithSixHexDigits(h)
    ensures |rgb| == 3 && forall k :: 0 <= k < 3 ==> 0 <= rgb[k] <= 255
  {
    [16 * DigitValue(h[0]) + DigitValue(h[1]),
     16 * DigitValue(h[2]) + DigitValue(h[3]),
     16 * DigitValue(h[4]) + DigitValue(h[5])]
  }

  function Hashes(k: nat): (s: string)
    ensures |s| == k && forall i :: 0 <= i < k ==> s[i] == '#'
  {
    if k == 0 then [] else "#" + Hashes(k - 1)
  }

  /** "#RRGGBB" in upper-case hex, for channels in 0..255. */
  function FormatHex(rgb: seq<int>): (s: string)
    requires |rgb| == 3 && forall k :: 0 <= k < 3 ==> 0 <= rgb[k] <= 255
    ensures |s| == 7 && s[0] == '#' && AllHexDigits(s[1..])
  {
    "#" + [HexDigit(rgb[0] / 16), HexDigit(rgb[0] % 16),
           HexDigit(rgb[1] / 16), HexDigit(rgb[1] % 16),
           HexDigit(rgb[2] / 16), HexDigit(rgb[2] % 16)]
  }

  /** Removing the leading '#'s of any number of them in front of a string that does not start with one. */
  lemma {:induction false} StripHashesPrefix(k: nat, t: string)
    requires t == [] || t[0] != '#'
    ensures StripLeadingHashes(Hashes(k) + t) == t
  {
    if k > 0 {
      assert (Hashes(k) + t)[1..] == Hashes(k - 1) + t;
      StripHashesPrefix(k - 1, t);
    }
  }

  /** A field cut from two hex digits of `h` reads as their byte value. */
  lemma FieldOfDigits(h: string, i: nat)
    requires i + 2 <= |h| && IsHexDigit(h[i]) && IsHexDigit(h[i + 1])
    ensures ParseField(Field(h, i)) == Some(16 * DigitValue(h[i]) + DigitValue(h[i + 1]))
  {
  }

  /** Six leading hex digits decode to their three byte values, in order, whatever follows. */
  lemma ReadSixDigits(h: string)
    requires StartsWithSixHexDigits(h)
    ensures ReadChannels(h) == Success(SixDigitChannels(h))
  {
  }

  /** After the leading '#'s, six hex digits decode to their three byte values. */
  lemma SixDigitsDecode(s: string)
    requires StartsWithSixHexDigits(StripLeadingHashes(s))
    ensures HexToRgb(s) == Success(SixDigitChannels(StripLeadingHashes(s)))
  {
  }

  /** Any number of leading '#'s, six hex digits, then anything: the tail is ignored. */
  lemma HexToRgbIgnoresTail(k: nat, d: string, tail: string)
    requires |d| == 6 && AllHexDigits(d)
    ensures HexToRgb(Hashes(k) + d + tail) == Success(SixDigitChannels(d + tail))
  {
    var t := d + tail;
    assert forall i :: 0 <= i < 6 ==> t[i] == d[i];
    assert !IsHexDigit('#');
    assert Hashes(k) + d + tail == Hashes(k) + t;
    StripHashesPrefix(k, t);
    ReadSixDigits(t);
  }

  /** Formatting channels as "#RRGGBB" and parsing the result gives the channels back. */
  lemma FormatHexRoundTrip(rgb: seq<int>)
    requires |rgb| == 3 && forall k :: 0 <= k < 3 ==> 0 <= rgb[k] <= 255
    ensures HexToRgb(FormatHex(rgb)) == Success(rgb)
  {
    var s := FormatHex(rgb);
    var d := s[1..];
    assert s == Hashes(1) + d + [];
    assert d + [] == d;
    HexToRgbIgnoresTail(1, d, []);
    assert d[0] == HexDigit(rgb[0] / 16) && d[1] == HexDigit(rgb[0] % 16);
    assert d[2] == HexDigit(rgb[1] / 16) && d[3] == HexDigit(rgb[1] % 16);
    assert d[4] == HexDigit(rgb[2] / 16) && d[5] == HexDigit(rgb[2] % 16);
    var c := SixDigitChannels(d);
    assert c[0] == rgb[0] && c[1] == rgb[1] && c[2] == rgb[2];
    assert c == rgb;
  }

  /** A field holding a character that is no hex digit, sign or whitespace fails to parse. */
  lemma ForeignCharRejected(f: string, j: nat)
    requires |f| <= 2 && j < |f| && !IsHexDigit(f[j]) && !IsSpace(f[j]) && f[j] != '+' && f[j] != '-'
    ensures ParseField(f) == None
  {
  }

  /** A hex string whose field `k` holds such a character is rejected. */
  lemma HexToRgbRejectsForeignChar(s: string, k: nat, j: nat)
    requires k < 3 && j < |Field(StripLeadingHashes(s), 2 * k)|
    requires var c := Field(StripLeadingHashes(s), 2 * k)[j];
      !IsHexDigit(c) && !IsSpace(c) && c != '+' && c != '-'
    ensures HexToRgb(s).Failure?
  {
  }

  /** Normalised channels of 0..255 values lie in the unit interval. */
  lemma NormaliseInUnitInterval(cs: seq<int>)
    requires forall i :: 0 <= i < |cs| ==> 0 <= cs[i] <= 255
    ensures forall i :: 0 <= i < |cs| ==> 0.0 <= Normalise(cs)[i] <= 1.0
  {
  }

  /** Normalisation keeps the order between any two channels. */
  lemma NormalisePreservesOrder(cs: seq<int>, i: nat, j: nat)
    requires i < |cs| && j < |cs|
    ensures cs[i] <= cs[j] <==> Normalise(cs)[i] <= Normalise(cs)[j]
  {
  }

  /** A hex colour with six digits after its '#'s decodes, and all its normalised channels lie in [0, 1]. */
  lemma HexHighlightColourInUnitInterval(t: string)
    requires StartsWithSixHexDigits(StripLeadingHashes(t))
    ensures HighlightColour(Some(HexColour(t))) == Success(Normalise(SixDigitChannels(StripLeadingHashes(t))))
    ensures var v := HighlightColour(Some(HexColour(t))).value;
      forall i :: 0 <= i < |v| ==> 0.0 <= v[i] <= 1.0
  {
  }

  /**
   * Every short form `int(field, 16)` accepts, for any hex digit `d` and whitespace `w`:
   * `d`, `+d`, `-d`, `dw` and `wd` read as the digit's value, negated after a minus.
   */
  lemma ShortFieldValues(d: char, w: char)
    requires IsHexDigit(d) && IsSpace(w)
    ensures ParseField([d]) == Some(DigitValue(d))
    ensures ParseField(['+', d]) == Some(DigitValue(d))
    ensures ParseField(['-', d]) == Some(-(DigitValue(d) as int))
    ensures ParseField([d, w]) == Some(DigitValue(d))
    ensures ParseField([w, d]) == Some(DigitValue(d))
  {
  }

  /** Drop whitespace at both ends, as `int()` does first. */
  function TrimSpace(s: string): (t: string)
    ensures |t| <= |s|
    decreases |s|
  {
    if s != [] && IsSpace(s[0]) then TrimSpace(s[1..])
    else if s != [] && IsSpace(s[|s| - 1]) then TrimSpace(s[..|s| - 1])
    else s
  }

  /** The value of a non-empty string of hex digits, most significant digit first. */
  function HexValue(s: string): (v: nat)
    requires AllHexDigits(s)
    decreases |s|
  {
    if s == [] then 0 else 16 * HexValue(s[..|s| - 1]) + DigitValue(s[|s| - 1])
  }

  /**
   * Python's reading of `int(s, 16)` for a string without a "0x" prefix or underscores:
   * trim the whitespace, then an optional sign followed by at least one hex digit.
   */
  function PythonHexInt(s: string): (r: Option<int>)
  {
    var t := TrimSpace(s);
    if t != [] && (t[0] == '+' || t[0] == '-') then
      if |t| > 1 && AllHexDigits(t[1..]) then
        Some(if t[0] == '-' then -(HexValue(t[1..]) as int) else HexValue(t[1..]))
      else None
    else if t != [] && AllHexDigits(t) then Some(HexValue(t))
    else None
  }

  /**
   * On fields of at most two characters, which leave no room for a "0x" prefix or an
   * underscore between digits, ParseField is exactly Python's reading.
   */
  lemma ParseFieldIsPythonHexInt(f: string)
    requires |f| <= 2
    ensures ParseField(f) == PythonHexInt(f)
  {
    if |f| == 1 {
      assert TrimSpace(f) == if IsSpace(f[0]) then [] else f by {
        if IsSpace(f[0]) {
          assert TrimSpace(f[1..]) == [];
        }
      }
    } else if |f| == 2 {
      var a, b := f[0], f[1];
      assert f[1..] == [b] && f[..1] == [a];
      var t := TrimSpace(f);
      if IsSpace(a) {
        assert t == TrimSpace([b]);
        if IsSpace(b) {
          assert TrimSpace([b][1..]) == [];
        } else {
          assert t == [b] && [b][..0] == [];
          if IsHexDigit(b) {
            assert HexValue(t) == DigitValue(b);
          }
        }
      } else if IsSpace(b) {
        assert t == TrimSpace([a]) == [a];
      } else {
        assert t == f;
        if a == '+' || a == '-' {
          assert t[1..] == [b] && [b][..0] == [];
        } else if AllHexDigits(f) {
          assert f[..1] == [a];
          assert HexValue(f[..1]) == DigitValue(a);
        }
      }
    }
  }

  /** Python also reads a lone digit, a signed digit and padded digits; a lone sign or nothing fails. */
  lemma ShortFieldForms()
    ensures ParseField("F") == Some(15)
    ensures ParseField("-F") == Some(-15)
    ensures ParseField("+a") == Some(10)
    ensures ParseField(" 7") == Some(7)
    ensures ParseField("+") == None
    ensures ParseField("") == None
  {
  }

  /** "#FF0000" decodes to (255, 0, 0) and normalises to (1.0, 0.0, 0.0). */
  lemma PureRedExample()
    ensures HexToRgb("#FF0000") == Success([255, 0, 0])
    ensures HighlightColour(Some(HexColour("#FF0000"))) == Success([1.0, 0.0, 0.0])
  {
    FormatHexRoundTrip([255, 0, 0]);
    assert FormatHex([255, 0, 0]) == "#FF0000";
    assert Normalise([255, 0, 0]) == [1.0, 0.0, 0.0];
  }

  /** "#00FF00" decodes to (0, 255, 0) and normalises to (0.0, 1.0, 0.0). */
  lemma PureGreenExample()
    ensures HexToRgb("#00FF00") == Success([0, 255, 0])
    ensures HighlightColour(Some(HexColour("#00FF00"))) == Success([0.0, 1.0, 0.0])
  {
    FormatHexRoundTrip([0, 255, 0]);
    assert FormatHex([0, 255, 0]) == "#00FF00";
    assert Normalise([0, 255, 0]) == [0.0, 1.0, 0.0];
  }
}
