/** The `SubtitleParser` of multimodal/dataset/facet/subtitle_facet.py: the
    callbacks that turn one subtitle's markup into strings, each with the
    font colour and the bold/italic/underline flags in force where it
    occurs. The HTML tokeniser itself is not modelled: a subtitle's content
    is the sequence of events the tokeniser reports, tag and attribute
    names already lower-cased. */
module SubtitleParser {

  import opened Wrappers
  import opened Seqs

  /** An RGB colour; the parser stores whatever `int(_, 16)` returns. */
  datatype Color = Color(r: int, g: int, b: int)

  /** `NULL_COLOR`: no font colour in force. */
  const NullColor := Color(-1, -1, -1)

  /** The flags recorded with a string, in the `(b, i, u)` order the facet stores. */
  datatype Style = Style(bold: bool, italic: bool, underline: bool)

  const Plain := Style(false, false, false)

  /** A tokeniser callback: a start tag with its attributes (an attribute
      written without a value has `None`), an end tag, or a run of text. */
  datatype Event =
    | StartTag(tag: string, attrs: seq<(string, Option<string>)>)
    | EndTag(tag: string)
    | Data(text: string)

  /** The parser's lists and its current colour and flags. */
  datatype Parser = Parser(strings: seq<string>, colors: seq<Color>, styles: seq<Style>, color: Color, style: Style)

  /** One string, colour and style per recorded run. */
  predicate Aligned(p: Parser) {
    |p.strings| == |p.colors| == |p.styles|
  }

  /** `wipe()`: empty lists, no colour, no flags, whatever came before; the
      state `__init__` creates. */
  function Wipe(p: Parser): (q: Parser)
    ensures Aligned(q) && |q.strings| == 0
    ensures q.color == NullColor
    ensures !q.style.bold && !q.style.italic && !q.style.underline
  {
    Parser([], [], [], NullColor, Plain)
  }

  // ---------------------------------------------------------------------
  // int(s, 16)

  function HexDigitValue(c: char): (r: Option<nat>)
    ensures r.Some? ==> r.value < 16
  {
    if '0' <= c <= '9' then Some(c as int - '0' as int)
    else if 'a' <= c <= 'f' then Some(c as int - 'a' as int + 10)
    else if 'A' <= c <= 'F' then Some(c as int - 'A' as int + 10)
    else None
  }

  predicate AllHex(s: string) {
    forall i :: 0 <= i < |s| ==> HexDigitValue(s[i]).Some?
  }

  /** The number the hex digits `s` spell, most significant first. */
  function HexValue(s: string): nat
    requires AllHex(s)
    decreases |s|
  {
    if |s| == 0 then 0 else HexValue(s[..|s| - 1]) * 16 + HexDigitValue(s[|s| - 1]).value
  }

  /** `int(s, 16)`: an optional sign, an optional `0x` prefix and at least
      one hex digit; anything else raises `ValueError`. */
  function ParseHex(s: string): (r: Result<int>)
    ensures AllHex(s) && |s| > 0 ==> r == Ok(HexValue(s))
    ensures |s| == 0 ==> r.Err? && r.error.ValueError?
  {
    var negative := |s| > 0 && s[0] == '-';
    var unsigned := if |s| > 0 && (s[0] == '-' || s[0] == '+') then s[1..] else s;
    var digits := if |unsigned| >= 2 && unsigned[0] == '0' && (unsigned[1] == 'x' || unsigned[1] == 'X')
                  then unsigned[2..] else unsigned;
    if |digits| == 0 || !AllHex(digits) then Err(ValueError("invalid literal for int() with base 16"))
    else
      var magnitude: int := HexValue(digits);
      Ok(if negative then -magnitude else magnitude)
  }

  // ---------------------------------------------------------------------
  // '{:02x}'.format(c)

  function HexChar(d: nat): (c: char)
    requires d < 16
    ensures HexDigitValue(c) == Some(d)
  {
    if d < 10 then ('0' as int + d) as char else ('a' as int + d - 10) as char
  }

  /** The lower-case hex digits of `n`, without leading zeros. */
  function HexDigits(n: nat): (s: string)
    ensures |s| > 0 && AllHex(s)
    ensures n > 0 ==> s[0] != '0'
    ensures |s| == 1 <==> n < 16
    ensures |s| == 2 <==> 16 <= n < 256
    decreases n
  {
    if n < 16 then [HexChar(n)] else HexDigits(n / 16) + [HexChar(n % 16)]
  }

  /** `'{:02x}'.format(c)`: at least two digits, zero-padded; a negative
      value is a minus sign before the digits of its magnitude. */
  function Hex02(c: int): (s: string)
    ensures |s| == 2 <==> -15 <= c <= 255
    ensures |s| >= 2
  {
    if c < 0 then "-" + HexDigits(-c)
    else if c < 16 then "0" + HexDigits(c)
    else HexDigits(c)
  }

  lemma {:induction false} HexDigitsValue(n: nat)
    ensures HexValue(HexDigits(n)) == n
    decreases n
  {
    if n >= 16 {
      HexDigitsValue(n / 16);
      var s := HexDigits(n);
      assert s[..|s| - 1] == HexDigits(n / 16);
    }
  }

  /** `int(_, 16)` reads back what `'{:02x}'` writes, for every integer. */
  lemma Hex02RoundTrip(c: int)
    ensures ParseHex(Hex02(c)) == Ok(c)
  {
    var n := if c < 0 then -c else c;
    var d := HexDigits(n);
    HexDigitsValue(n);
    if c < 0 {
      assert Hex02(c)[1..] == d;
    } else if c < 16 {
      var s := Hex02(c);
      assert s[..1] == "0" && s[1] == d[0];
      assert HexValue(s[..1]) == 0 by {
        assert s[..1][..0] == [];
      }
    }
  }

  // ---------------------------------------------------------------------
  // Callbacks

  /** `value.strip('#')`, then the three colour components from
      `[:2]`, `[2:4]` and `[4:]` (Python slices clamp to the string). */
  function ParseColor(value: string): (r: Result<Color>)
  {
    var c := StripChar(value, '#');
    var n := |c|;
    var r :- ParseHex(c[..Min(2, n)]);
    var g :- ParseHex(c[Min(2, n)..Min(4, n)]);
    var b :- ParseHex(c[Min(4, n)..]);
    Ok(Color(r, g, b))
  }

  function Min(a: int, b: int): int { if a <= b then a else b }

  /** `s.strip(ch)`: `s` without its leading and trailing `ch`s. */
  function StripChar(s: string, ch: char): (t: string)
    ensures |t| == 0 || (t[0] != ch && t[|t| - 1] != ch)
    ensures (forall i :: 0 <= i < |s| ==> s[i] != ch) ==> t == s
    decreases |s|
  {
    if |s| > 0 && s[0] == ch then StripChar(s[1..], ch)
    else if |s| > 0 && s[|s| - 1] == ch then StripChar(s[..|s| - 1], ch)
    else s
  }

  /** The colour the attributes of a `font` tag set, in turn: the last
      `color` attribute's, `None` when there is none. A `color` attribute
      without a value raises `AttributeError` (`None.strip`), one that is
      not hex raises `ValueError`; the first such attribute decides. */
  function FontColor(attrs: seq<(string, Option<string>)>): (r: Result<Option<Color>>)
    ensures r.Ok? && r.value.None? ==> forall i :: 0 <= i < |attrs| ==> attrs[i].0 != "color"
    decreases |attrs|
  {
    if |attrs| == 0 then Ok(None)
    else
      var prev :- FontColor(attrs[..|attrs| - 1]);
      var (name, value) := attrs[|attrs| - 1];
      if name != "color" then Ok(prev)
      else if value.None? then Err(AttributeError)
      else
        var color :- ParseColor(value.value);
        Ok(Some(color))
  }

  /** The flags after a `u`, `b` or `i` tag; other tags leave them. */
  function Flag(s: Style, tag: string, on: bool): Style {
    if tag == "u" then s.(underline := on)
    else if tag == "b" then s.(bold := on)
    else if tag == "i" then s.(italic := on)
    else s
  }

  /** A start tag the callbacks raise on: a font tag with a bad colour. */
  predicate Faulty(e: Event) {
    e.StartTag? && e.tag == "font" && FontColor(e.attrs).Err?
  }

  /** One callback. */
  function Handle(p: Parser, e: Event): (r: Result<Parser>)
    ensures r.Err? <==> Faulty(e)
    ensures r.Ok? && !e.Data? ==> r.value.strings == p.strings && r.value.colors == p.colors && r.value.styles == p.styles
    ensures r.Ok? && e.Data? ==> && r.value.strings == p.strings + [e.text]
                                 && r.value.colors == p.colors + [p.color]
                                 && r.value.styles == p.styles + [p.style]
  {
    match e
    case StartTag(tag, attrs) =>
      if tag == "font" then
        var color :- FontColor(attrs);
        Ok(if color.Some? then p.(color := color.value) else p)
      else Ok(p.(style := Flag(p.style, tag, true)))
    case EndTag(tag) =>
      if tag == "font" then Ok(p.(color := NullColor)) else Ok(p.(style := Flag(p.style, tag, false)))
    case Data(text) =>
      Ok(p.(strings := p.strings + [text], colors := p.colors + [p.color], styles := p.styles + [p.style]))
  }

  /** The texts of the data events, in order. */
  function Texts(events: seq<Event>): (r: seq<string>)
    ensures |r| <= |events|
    decreases |events|
  {
    if |events| == 0 then []
    else
      var last := events[|events| - 1];
      Texts(events[..|events| - 1]) + (if last.Data? then [last.text] else [])
  }

  /** `feed(content)`: the callbacks for each event in turn, stopping at
      the first that raises. */
  function Feed(p: Parser, events: seq<Event>): (r: Result<Parser>)
    ensures r.Err? <==> exists i :: 0 <= i < |events| && Faulty(events[i])
    ensures r.Ok? ==> r.value.strings == p.strings + Texts(events)
    ensures r.Ok? && Aligned(p) ==> Aligned(r.value)
    decreases |events|
  {
    if |events| == 0 then Ok(p)
    else
      var init := events[..|events| - 1];
      assert forall i :: 0 <= i < |init| ==> init[i] == events[i];
      var q :- Feed(p, init);
      Handle(q, events[|events| - 1])
  }

  // ---------------------------------------------------------------------
  // Reference: the state in force before event `i`

  /** Whether `tag`'s flag is on before event `i`: set by the latest start
      or end tag of that name, `initial` when there is none. Nesting is not
      counted: one end tag clears the flag however many start tags came before. */
  function FlagAt(events: seq<Event>, tag: string, i: nat, initial: bool): bool
    requires i <= |events|
    decreases i
  {
    if i == 0 then initial
    else match events[i - 1]
      case StartTag(t, _) => if t == tag then true else FlagAt(events, tag, i - 1, initial)
      case EndTag(t) => if t == tag then false else FlagAt(events, tag, i - 1, initial)
      case Data(_) => FlagAt(events, tag, i - 1, initial)
  }

  function StyleAt(events: seq<Event>, i: nat, initial: Style): Style
    requires i <= |events|
  {
    Style(FlagAt(events, "b", i, initial.bold), FlagAt(events, "i", i, initial.italic),
          FlagAt(events, "u", i, initial.underline))
  }

  /** The colour before event `i`: that of the latest font tag setting one,
      `NULL_COLOR` if a `</font>` came later, `initial` when neither occurs.
      An end tag does not restore an enclosing font's colour. */
  function ColorAt(events: seq<Event>, i: nat, initial: Color): Color
    requires i <= |events|
    decreases i
  {
    if i == 0 then initial
    else match events[i - 1]
      case StartTag(t, attrs) =>
        if t == "font" && FontColor(attrs).Ok? && FontColor(attrs).value.Some? then FontColor(attrs).value.value
        else ColorAt(events, i - 1, initial)
      case EndTag(t) => if t == "font" then NullColor else ColorAt(events, i - 1, initial)
      case Data(_) => ColorAt(events, i - 1, initial)
  }

  /** After feeding, the parser's colour is the one the latest relevant
      font tags set. */
  lemma {:induction false} FeedColor(p: Parser, events: seq<Event>)
    requires Feed(p, events).Ok?
    ensures Feed(p, events).value.color == ColorAt(events, |events|, p.color)
    decreases |events|
  {
    if |events| > 0 {
      var n := |events| - 1;
      var init := events[..n];
      FeedUnfold(p, events);
      FeedColor(p, init);
      ColorAtPrefix(events, n, n, p.color);
    }
  }

  /** After feeding, the parser's flags are those the latest `b`, `i` and
      `u` tags set. */
  lemma {:induction false} FeedStyle(p: Parser, events: seq<Event>)
    requires Feed(p, events).Ok?
    ensures Feed(p, events).value.style == StyleAt(events, |events|, p.style)
    decreases |events|
  {
    if |events| > 0 {
      var n := |events| - 1;
      var init := events[..n];
      FeedUnfold(p, events);
      FeedStyle(p, init);
      StyleAtPrefix(events, n, n, p.style);
      HandleStyle(Feed(p, init).value, events, n, p.style);
    }
  }

  /** Handling event `n` moves the flags from those in force before it to
      those in force after it. */
  lemma HandleStyle(q: Parser, events: seq<Event>, n: nat, initial: Style)
    requires n < |events| && q.style == StyleAt(events, n, initial)
    requires Handle(q, events[n]).Ok?
    ensures Handle(q, events[n]).value.style == StyleAt(events, n + 1, initial)
  {
  }

  /** Feeding a non-empty sequence is feeding all but its last event and
      then handling that one. */
  lemma FeedUnfold(p: Parser, events: seq<Event>)
    requires |events| > 0 && Feed(p, events).Ok?
    ensures Feed(p, events[..|events| - 1]).Ok?
    ensures Feed(p, events) == Handle(Feed(p, events[..|events| - 1]).value, events[|events| - 1])
  {
  }

  /** The state before event `i` depends only on the events before it. */
  lemma {:induction false} FlagAtPrefix(events: seq<Event>, n: nat, i: nat, tag: string, initial: bool)
    requires i <= n <= |events|
    ensures FlagAt(events[..n], tag, i, initial) == FlagAt(events, tag, i, initial)
    decreases i
  {
    if i > 0 {
      assert events[..n][i - 1] == events[i - 1];
      FlagAtPrefix(events, n, i - 1, tag, initial);
    }
  }

  lemma {:induction false} ColorAtPrefix(events: seq<Event>, n: nat, i: nat, initial: Color)
    requires i <= n <= |events|
    ensures ColorAt(events[..n], i, initial) == ColorAt(events, i, initial)
    decreases i
  {
    if i > 0 {
      assert events[..n][i - 1] == events[i - 1];
      ColorAtPrefix(events, n, i - 1, initial);
    }
  }

  lemma StyleAtPrefix(events: seq<Event>, n: nat, i: nat, initial: Style)
    requires i <= n <= |events|
    ensures StyleAt(events[..n], i, initial) == StyleAt(events, i, initial)
  {
    FlagAtPrefix(events, n, i, "b", initial.bold);
    FlagAtPrefix(events, n, i, "i", initial.italic);
    FlagAtPrefix(events, n, i, "u", initial.underline);
  }

  /** Each data event records its text with the colour and flags in force
      where it occurs, at the position after the texts before it. */
  lemma {:induction false} FeedRecords(p: Parser, events: seq<Event>, i: nat)
    requires Aligned(p) && Feed(p, events).Ok?
    requires i < |events| && events[i].Data?
    ensures var r := Feed(p, events).value;
            var k := |p.strings| + |Texts(events[..i])|;
            && k < |r.strings| && Aligned(r)
            && r.strings[k] == events[i].text
            && r.colors[k] == ColorAt(events, i, p.color)
            && r.styles[k] == StyleAt(events, i, p.style)
    decreases |events|
  {
    var n := |events| - 1;
    var init := events[..n];
    FeedUnfold(p, events);
    var q := Feed(p, init).value;
    if i == n {
      FeedColor(p, init);
      FeedStyle(p, init);
      ColorAtPrefix(events, n, n, p.color);
      StyleAtPrefix(events, n, n, p.style);
    } else {
      FeedRecords(p, init, i);
      assert init[..i] == events[..i];
      ColorAtPrefix(events, n, i, p.color);
      StyleAtPrefix(events, n, i, p.style);
    }
  }
}
