/** The markup `get_subrip_texts` writes around one string, as the events a
    tokeniser reports for it, and what the `SubtitleParser` callbacks make
    of those events: a formatted string read back gives the string, its
    style and (when written) its colour. */
module SubripMarkup {

  import opened Wrappers
  import opened Seqs
  import opened SubtitleParser
  import opened SubtitleFacet

  function FontOpen(c: Color): seq<Event> {
    if ColorShown(c) then [StartTag("font", [("color", Some("#" + ColorHex(c)))])] else []
  }

  function FlagOpen(tag: string, on: bool): seq<Event> {
    if on then [StartTag(tag, [])] else []
  }

  /** The start tags of a formatted string, in the order font, b, i, u. */
  function OpeningEvents(c: Color, st: Style): seq<Event> {
    FontOpen(c) + FlagOpen("b", st.bold) + FlagOpen("i", st.italic) + FlagOpen("u", st.underline)
  }

  /** The end tag matching a start tag. */
  function EndOf(e: Event): Event {
    match e
    case StartTag(t, _) => EndTag(t)
    case _ => e
  }

  /** The end tags that close `open`, innermost first. */
  function Closers(open: seq<Event>): (r: seq<Event>)
    ensures |r| == |open|
    decreases |open|
  {
    if |open| == 0 then [] else Closers(open[1..]) + [EndOf(open[0])]
  }

  /** The events of one formatted string: its start tags, its text (the
      tokeniser reports no empty text), and the matching end tags in
      reverse, so the tags are well nested. */
  function RunEvents(s: string, c: Color, st: Style): seq<Event> {
    OpeningEvents(c, st) + (if s == "" then [] else [Data(s)]) + Closers(OpeningEvents(c, st))
  }

  // ---------------------------------------------------------------------
  // Events back to text

  function RenderAttrs(attrs: seq<(string, Option<string>)>): string
    decreases |attrs|
  {
    if |attrs| == 0 then ""
    else
      var (name, value) := attrs[0];
      " " + name + (match value case None => "" case Some(v) => "=\"" + v + "\"") + RenderAttrs(attrs[1..])
  }

  function RenderEvent(e: Event): string {
    match e
    case StartTag(t, attrs) => "<" + t + RenderAttrs(attrs) + ">"
    case EndTag(t) => "</" + t + ">"
    case Data(x) => x
  }

  /** The text the events are written as. */
  function Render(events: seq<Event>): string
    decreases |events|
  {
    if |events| == 0 then "" else RenderEvent(events[0]) + Render(events[1..])
  }

  lemma {:induction false} RenderAppend(a: seq<Event>, b: seq<Event>)
    ensures Render(a + b) == Render(a) + Render(b)
    decreases |a|
  {
    if |a| > 0 {
      assert (a + b)[1..] == a[1..] + b;
      RenderAppend(a[1..], b);
    } else {
      assert a + b == b;
    }
  }

  lemma {:induction false} ConcatAppend(a: seq<string>, b: seq<string>)
    ensures Concat(a + b) == Concat(a) + Concat(b)
    decreases |a|
  {
    if |a| > 0 {
      assert (a + b)[1..] == a[1..] + b;
      ConcatAppend(a[1..], b);
    } else {
      assert a + b == b;
    }
  }

  lemma {:induction false} ReverseAppend<T>(a: seq<T>, b: seq<T>)
    ensures Reverse(a + b) == Reverse(b) + Reverse(a)
    decreases |a|
  {
    if |a| > 0 {
      assert (a + b)[1..] == a[1..] + b;
      ReverseAppend(a[1..], b);
    } else {
      assert a + b == b;
    }
  }

  lemma {:induction false} ClosersAppend(a: seq<Event>, b: seq<Event>)
    ensures Closers(a + b) == Closers(b) + Closers(a)
    decreases |a|
  {
    if |a| > 0 {
      assert (a + b)[1..] == a[1..] + b;
      ClosersAppend(a[1..], b);
    } else {
      assert a + b == b;
    }
  }

  lemma Concat4(a: seq<string>, b: seq<string>, c: seq<string>, d: seq<string>)
    ensures Concat(a + b + c + d) == Concat(a) + Concat(b) + Concat(c) + Concat(d)
  {
    ConcatAppend(a + b + c, d);
    ConcatAppend(a + b, c);
    ConcatAppend(a, b);
  }

  lemma Render4(a: seq<Event>, b: seq<Event>, c: seq<Event>, d: seq<Event>)
    ensures Render(a + b + c + d) == Render(a) + Render(b) + Render(c) + Render(d)
  {
    RenderAppend(a + b + c, d);
    RenderAppend(a + b, c);
    RenderAppend(a, b);
  }

  lemma Reverse4<T>(a: seq<T>, b: seq<T>, c: seq<T>, d: seq<T>)
    ensures Reverse(a + b + c + d) == Reverse(d) + Reverse(c) + Reverse(b) + Reverse(a)
  {
    ReverseAppend(a + b + c, d);
    ReverseAppend(a + b, c);
    ReverseAppend(a, b);
  }

  lemma Closers4(a: seq<Event>, b: seq<Event>, c: seq<Event>, d: seq<Event>)
    ensures Closers(a + b + c + d) == Closers(d) + Closers(c) + Closers(b) + Closers(a)
  {
    ClosersAppend(a + b + c, d);
    ClosersAppend(a + b, c);
    ClosersAppend(a, b);
  }

  lemma FontTagRender(h: string)
    ensures Render([StartTag("font", [("color", Some(h))])]) == "<font color=\"" + h + "\">"
  {
    var attrs := [("color", Some(h))];
    assert RenderAttrs(attrs) == " color=\"" + h + "\"" by {
      assert RenderAttrs(attrs) == " " + "color" + ("=\"" + h + "\"") + RenderAttrs([]);
    }
    assert Render([StartTag("font", attrs)]) == "<" + "font" + RenderAttrs(attrs) + ">" + Render([]);
  }

  lemma FontPieces(c: Color)
    ensures Render(FontOpen(c)) == Concat(FontTag(c))
    ensures Render(Closers(FontOpen(c))) == Concat(Reverse(FontEnd(c)))
  {
    if ColorShown(c) {
      var h := "#" + ColorHex(c);
      FontTagRender(h);
      assert "<font color=\"" + h + "\">" == "<font color=\"#" + ColorHex(c) + "\">";
      assert Closers(FontOpen(c)) == [EndTag("font")];
    }
  }

  lemma FlagPieces(tag: string, on: bool)
    ensures Render(FlagOpen(tag, on)) == Concat(FlagTag(tag, on))
    ensures Render(Closers(FlagOpen(tag, on))) == Concat(Reverse(FlagEnd(tag, on)))
  {
    if on {
      assert RenderAttrs([]) == "";
      assert Closers(FlagOpen(tag, on)) == [EndTag(tag)];
    }
  }

  /** The start tags are written as the opening tags. */
  lemma OpeningMarkup(c: Color, st: Style)
    ensures Render(OpeningEvents(c, st)) == Concat(OpeningTags(c, st))
  {
    var o1, o2, o3, o4 := FontOpen(c), FlagOpen("b", st.bold), FlagOpen("i", st.italic), FlagOpen("u", st.underline);
    FontPieces(c);
    FlagPieces("b", st.bold);
    FlagPieces("i", st.italic);
    FlagPieces("u", st.underline);
    Render4(o1, o2, o3, o4);
    Concat4(FontTag(c), FlagTag("b", st.bold), FlagTag("i", st.italic), FlagTag("u", st.underline));
  }

  /** The end tags are written as the closing tags in reverse. */
  lemma ClosingMarkup(c: Color, st: Style)
    ensures Render(Closers(OpeningEvents(c, st))) == Concat(Reverse(ClosingTags(c, st)))
  {
    var o1, o2, o3, o4 := FontOpen(c), FlagOpen("b", st.bold), FlagOpen("i", st.italic), FlagOpen("u", st.underline);
    FontPieces(c);
    FlagPieces("b", st.bold);
    FlagPieces("i", st.italic);
    FlagPieces("u", st.underline);
    Closers4(o1, o2, o3, o4);
    Render4(Closers(o4), Closers(o3), Closers(o2), Closers(o1));
    Reverse4(FontEnd(c), FlagEnd("b", st.bold), FlagEnd("i", st.italic), FlagEnd("u", st.underline));
    Concat4(Reverse(FlagEnd("u", st.underline)), Reverse(FlagEnd("i", st.italic)),
            Reverse(FlagEnd("b", st.bold)), Reverse(FontEnd(c)));
  }

  /** The events of a formatted string are written exactly as
      `get_subrip_texts` writes it: so its tags are well nested. */
  lemma RunMarkup(s: string, c: Color, st: Style)
    ensures Render(RunEvents(s, c, st)) == FormatRun(s, c, st)
  {
    var open := OpeningEvents(c, st);
    var text: seq<Event> := if s == "" then [] else [Data(s)];
    OpeningMarkup(c, st);
    ClosingMarkup(c, st);
    assert Render(text) == s by {
      if s != "" {
        assert Render([Data(s)]) == s + Render([]);
      }
    }
    RenderAppend(open + text, Closers(open));
    RenderAppend(open, text);
  }

  // ---------------------------------------------------------------------
  // Events back through the parser

  lemma {:induction false} FeedAppend(p: Parser, a: seq<Event>, b: seq<Event>)
    ensures Feed(p, a + b) == if Feed(p, a).Err? then Feed(p, a) else Feed(Feed(p, a).value, b)
    decreases |b|
  {
    if |b| == 0 {
      assert a + b == a;
    } else {
      var init, e := b[..|b| - 1], b[|b| - 1];
      assert a + b == (a + init) + [e];
      assert b == init + [e];
      FeedAppend(p, a, init);
      FeedSnoc(p, a + init, e);
      if Feed(p, a).Ok? {
        FeedSnoc(Feed(p, a).value, init, e);
      }
    }
  }

  lemma FeedSnoc(p: Parser, events: seq<Event>, e: Event)
    ensures Feed(p, events + [e]) == if Feed(p, events).Err? then Err(Feed(p, events).error) else Handle(Feed(p, events).value, e)
  {
    assert (events + [e])[..|events|] == events;
  }

  lemma FeedOne(p: Parser, e: Event)
    ensures Feed(p, [e]) == Handle(p, e)
  {
    assert [e][..0] == [];
  }

  /** A colour written as a font tag and read back by `int(_, 16)` on the
      slices `[:2]`, `[2:4]` and `[4:]`: the first two components must
      format to exactly two characters. */
  lemma ParseShownColor(c: Color)
    requires ColorShown(c) && -15 <= c.r <= 255 && -15 <= c.g <= 255
    ensures ParseColor("#" + ColorHex(c)) == Ok(c)
  {
    var hex := ColorHex(c);
    forall i | 0 <= i < |hex| ensures hex[i] != '#' {
      NoHashInHex02(c.r);
      NoHashInHex02(c.g);
      NoHashInHex02(c.b);
      assert hex[i] in Hex02(c.r) || hex[i] in Hex02(c.g) || hex[i] in Hex02(c.b);
    }
    assert ("#" + hex)[1..] == hex;
    assert StripChar("#" + hex, '#') == hex;
    assert hex[..2] == Hex02(c.r);
    assert hex[2..4] == Hex02(c.g);
    assert hex[4..] == Hex02(c.b);
    Hex02RoundTrip(c.r);
    Hex02RoundTrip(c.g);
    Hex02RoundTrip(c.b);
  }

  lemma NoHashInHex02(x: int)
    ensures '#' !in Hex02(x)
  {
    var s := Hex02(x);
    var d := HexDigits(if x < 0 then -x else x);
    forall i | 0 <= i < |s| ensures s[i] != '#' {
      if x < 0 && i > 0 {
        assert s[i] == d[i - 1];
        assert HexDigitValue(d[i - 1]).Some?;
      } else if 0 <= x < 16 && i > 0 {
        assert s[i] == d[i - 1];
        assert HexDigitValue(d[i - 1]).Some?;
      } else if x >= 16 {
        assert HexDigitValue(s[i]).Some?;
      }
    }
  }

  lemma FeedFontOpen(p: Parser, c: Color)
    requires ColorShown(c) ==> -15 <= c.r <= 255 && -15 <= c.g <= 255
    ensures Feed(p, FontOpen(c)) == Ok(if ColorShown(c) then p.(color := c) else p)
  {
    if ColorShown(c) {
      ParseShownColor(c);
      var attrs := [("color", Some("#" + ColorHex(c)))];
      assert attrs[..0] == [];
      assert FontColor(attrs) == Ok(Some(c));
      FeedOne(p, StartTag("font", attrs));
    }
  }

  lemma FeedFontClose(p: Parser, c: Color)
    ensures Feed(p, Closers(FontOpen(c))) == Ok(if ColorShown(c) then p.(color := NullColor) else p)
  {
    if ColorShown(c) {
      assert Closers(FontOpen(c)) == [EndTag("font")];
      FeedOne(p, EndTag("font"));
    }
  }

  lemma FeedFlagOpen(p: Parser, tag: string, on: bool)
    requires tag != "font"
    ensures Feed(p, FlagOpen(tag, on)) == Ok(if on then p.(style := Flag(p.style, tag, true)) else p)
  {
    if on {
      FeedOne(p, StartTag(tag, []));
    }
  }

  lemma FeedFlagClose(p: Parser, tag: string, on: bool)
    requires tag != "font"
    ensures Feed(p, Closers(FlagOpen(tag, on))) == Ok(if on then p.(style := Flag(p.style, tag, false)) else p)
  {
    if on {
      assert Closers(FlagOpen(tag, on)) == [EndTag(tag)];
      FeedOne(p, EndTag(tag));
    }
  }

  /** Feeding two pieces in turn. */
  lemma FeedChain(p: Parser, a: seq<Event>, b: seq<Event>, q: Parser, r: Parser)
    requires Feed(p, a) == Ok(q) && Feed(q, b) == Ok(r)
    ensures Feed(p, a + b) == Ok(r)
  {
    FeedAppend(p, a, b);
  }

  /** Reading the start tags from a wiped parser sets the colour (when
      written) and exactly the string's flags. */
  lemma FeedOpening(c: Color, st: Style)
    requires ColorShown(c) ==> -15 <= c.r <= 255 && -15 <= c.g <= 255
    ensures Feed(Fresh, OpeningEvents(c, st))
         == Ok(Parser([], [], [], if ColorShown(c) then c else NullColor, st))
  {
    var o1, o2, o3, o4 := FontOpen(c), FlagOpen("b", st.bold), FlagOpen("i", st.italic), FlagOpen("u", st.underline);
    var p1 := Parser([], [], [], if ColorShown(c) then c else NullColor, Plain);
    var p2 := p1.(style := Style(st.bold, false, false));
    var p3 := p1.(style := Style(st.bold, st.italic, false));
    var p4 := p1.(style := st);
    FeedFontOpen(Fresh, c);
    assert Feed(Fresh, o1) == Ok(p1);
    FeedFlagOpen(p1, "b", st.bold);
    assert Feed(p1, o2) == Ok(p2);
    FeedFlagOpen(p2, "i", st.italic);
    assert Feed(p2, o3) == Ok(p3);
    FeedFlagOpen(p3, "u", st.underline);
    assert Feed(p3, o4) == Ok(p4);
    FeedChain(Fresh, o1, o2, p1, p2);
    FeedChain(Fresh, o1 + o2, o3, p2, p3);
    FeedChain(Fresh, o1 + o2 + o3, o4, p3, p4);
  }

  /** Reading the end tags clears the colour and every flag. */
  lemma FeedClosing(q: Parser, c: Color, st: Style)
    requires q.color == (if ColorShown(c) then c else NullColor) && q.style == st
    ensures Feed(q, Closers(OpeningEvents(c, st)))
         == Ok(q.(color := NullColor, style := Plain))
  {
    var o1, o2, o3, o4 := FontOpen(c), FlagOpen("b", st.bold), FlagOpen("i", st.italic), FlagOpen("u", st.underline);
    Closers4(o1, o2, o3, o4);
    var c4, c3, c2, c1 := Closers(o4), Closers(o3), Closers(o2), Closers(o1);
    var q1 := q.(style := Style(st.bold, st.italic, false));
    var q2 := q.(style := Style(st.bold, false, false));
    var q3 := q.(style := Plain);
    var q4 := q.(color := NullColor, style := Plain);
    FeedFlagClose(q, "u", st.underline);
    assert Feed(q, c4) == Ok(q1);
    FeedFlagClose(q1, "i", st.italic);
    assert Feed(q1, c3) == Ok(q2);
    FeedFlagClose(q2, "b", st.bold);
    assert Feed(q2, c2) == Ok(q3);
    FeedFontClose(q3, c);
    assert Feed(q3, c1) == Ok(q4);
    FeedChain(q, c4, c3, q1, q2);
    FeedChain(q, c4 + c3, c2, q2, q3);
    FeedChain(q, c4 + c3 + c2, c1, q3, q4);
  }

  /** A formatted string with text, read back from a wiped parser, gives
      one record: the string, its style, and its colour when a font tag
      was written (`NULL_COLOR` otherwise); the parser ends with no colour
      and no flags. */
  lemma RunRoundTrip(s: string, c: Color, st: Style)
    requires s != ""
    requires ColorShown(c) ==> -15 <= c.r <= 255 && -15 <= c.g <= 255
    ensures Feed(Fresh, RunEvents(s, c, st))
         == Ok(Parser([s], [if ColorShown(c) then c else NullColor], [st], NullColor, Plain))
  {
    var open := OpeningEvents(c, st);
    var shown := if ColorShown(c) then c else NullColor;
    var q := Parser([], [], [], shown, st);
    var q' := Parser([s], [shown], [st], shown, st);
    var q'' := Parser([s], [shown], [st], NullColor, Plain);
    assert RunEvents(s, c, st) == open + [Data(s)] + Closers(open);
    FeedOpening(c, st);
    FeedOne(q, Data(s));
    assert Handle(q, Data(s)) == Ok(q') by {
      assert q.strings + [s] == [s] && q.colors + [shown] == [shown] && q.styles + [st] == [st];
    }
    FeedChain(Fresh, open, [Data(s)], q, q');
    FeedClosing(q', c, st);
    FeedChain(Fresh, open + [Data(s)], Closers(open), q', q'');
  }

  /** Every colour `int(_, 16)` can give for a two-digit component, and no
      colour at all, survive the round trip; so do the flags and the text. */
  lemma RunRoundTripExact(s: string, c: Color, st: Style)
    requires s != ""
    requires c == NullColor || (ColorShown(c) && 0 <= c.r <= 255 && 0 <= c.g <= 255)
    ensures Feed(Fresh, RunEvents(s, c, st)).Ok?
    ensures Feed(Fresh, RunEvents(s, c, st)).value.strings == [s]
    ensures Feed(Fresh, RunEvents(s, c, st)).value.colors == [c]
    ensures Feed(Fresh, RunEvents(s, c, st)).value.styles == [st]
  {
    RunRoundTrip(s, c, st);
  }

  /** A colour with some but not all components -1 is not written, so it
      reads back as `NULL_COLOR`. */
  lemma PartialNullColorLost(s: string)
    requires s != ""
    ensures Feed(Fresh, RunEvents(s, Color(-1, 5, 5), Plain)).value.colors == [NullColor]
  {
    RunRoundTrip(s, Color(-1, 5, 5), Plain);
  }
}
