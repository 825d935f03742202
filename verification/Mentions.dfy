/** Mentions in message markdown (client/src/converters.rs, `escape_markdown` and
    `markdown_with_mentions`). The spans come from mello_core, sorted, disjoint and within the text. */
module Mentions {
  import opened Collections
  import opened Wrappers

  predicate IsPunct(c: char) { '!' <= c <= '/' || ':' <= c <= '@' || '[' <= c <= '`' || '{' <= c <= '~' }

  function EscapeChar(c: char): string { if IsPunct(c) then ['\\', c] else [c] }

  function Escape(s: string): string { if s == "" then "" else EscapeChar(s[0]) + Escape(s[1..]) }

  /** The ASCII punctuation, all 32 of them, is escaped with a backslash. */
  lemma PunctuationIsEscaped(i: nat)
    requires i < 32
    ensures var c := "!\"#$%&'()*+,-./:;<=>?@[\\]^_`{|}~"[i]; EscapeChar(c) == "\\" + [c]
  {
    var c := "!\"#$%&'()*+,-./:;<=>?@[\\]^_`{|}~"[i];
    assert c as int == if i < 15 then 33 + i else if i < 22 then 43 + i else if i < 28 then 69 + i else 95 + i;
  }

  /** Nothing else is: control characters, the space, digits, letters, and all beyond ASCII stay. */
  lemma OthersAreNotEscaped(c: char)
    requires c <= ' ' || '0' <= c <= '9' || 'A' <= c <= 'Z' || 'a' <= c <= 'z' || c >= '\U{7f}'
    ensures EscapeChar(c) == [c]
  {
  }

  lemma {:induction false} EscapeSnoc(s: string, c: char)
    ensures Escape(s + [c]) == Escape(s) + EscapeChar(c)
  {
    if s == "" {
      assert (s + [c])[1..] == "";
    } else {
      assert (s + [c])[1..] == s[1..] + [c];
      EscapeSnoc(s[1..], c);
    }
  }

  method EscapeMarkdown(text: string) returns (out: string)
    ensures out == Escape(text)
  {
    out := "";
    for i := 0 to |text|
      invariant out == Escape(text[..i])
    {
      assert text[..i + 1] == text[..i] + [text[i]];
      EscapeSnoc(text[..i], text[i]);
      if IsPunct(text[i]) { out := out + "\\"; }
      out := out + [text[i]];
    }
    assert text[..|text|] == text;
  }

  /** A reader of escaped text: it stops at the first punctuation that is not escaped, and gives what
      it read and what is left. */
  function ReadEscaped(t: string): (r: (string, string))
    ensures |r.1| <= |t|
  {
    if t == "" then ("", "")
    else if t[0] == '\\' && |t| >= 2 && IsPunct(t[1]) then
      var (s, rest) := ReadEscaped(t[2..]); ([t[1]] + s, rest)
    else if IsPunct(t[0]) then ("", t)
    else
      var (s, rest) := ReadEscaped(t[1..]); ([t[0]] + s, rest)
  }

  lemma ReadOne(c: char, tail: string)
    ensures ReadEscaped(EscapeChar(c) + tail) == ([c] + ReadEscaped(tail).0, ReadEscaped(tail).1)
  {
    var t := EscapeChar(c) + tail;
    if IsPunct(c) {
      assert t[0] == '\\' && t[1] == c && t[2..] == tail;
    } else {
      assert t[0] == c && t[1..] == tail;
    }
  }

  lemma {:induction false} EscapeFirst(s: string, rest: string)
    requires s != "" && ReadEscaped(Escape(s[1..]) + rest) == (s[1..], rest)
    ensures ReadEscaped(Escape(s) + rest) == (s, rest)
  {
    var tail := Escape(s[1..]) + rest;
    assert Escape(s) + rest == EscapeChar(s[0]) + tail;
    ReadOne(s[0], tail);
    assert s == [s[0]] + s[1..];
  }

  lemma NothingEscaped(rest: string)
    requires rest == "" || (IsPunct(rest[0]) && rest[0] != '\\')
    ensures ReadEscaped(rest) == ("", rest)
  {
  }

  /** Escaping is undone by reading, up to whatever punctuation follows: nothing inside is
      punctuation without its escape. */
  lemma {:induction false} EscapeRoundTrip(s: string, rest: string)
    requires rest == "" || (IsPunct(rest[0]) && rest[0] != '\\')
    ensures ReadEscaped(Escape(s) + rest) == (s, rest)
  {
    if s == "" {
      assert Escape(s) + rest == rest;
      NothingEscaped(rest);
    } else {
      EscapeRoundTrip(s[1..], rest);
      EscapeFirst(s, rest);
    }
  }

  lemma EscapeInjective(a: string, b: string)
    ensures Escape(a) == Escape(b) <==> a == b
  {
    EscapeRoundTrip(a, "");
    EscapeRoundTrip(b, "");
    assert Escape(a) + "" == Escape(a) && Escape(b) + "" == Escape(b);
  }

  // ----- spans -----

  datatype Span = Span(start: nat, end: nat)

  /** Sorted, disjoint and within `text`, from `cursor` on. */
  predicate Spanning(spans: seq<Span>, cursor: nat, len: nat) {
    if spans == [] then cursor <= len
    else cursor <= spans[0].start <= spans[0].end <= len && Spanning(spans[1..], spans[0].end, len)
  }

  const CLOSE := "</font>"

  function Open(color: string): string { "<font color=\"" + color + "\">" }

  function Tagged(s: string, color: string): string { Open(color) + Escape(s) + CLOSE }

  /** The text from `cursor` on, with its mentions tagged. */
  function Marked(text: string, spans: seq<Span>, cursor: nat, color: string): string
    requires Spanning(spans, cursor, |text|)
    decreases |spans|
  {
    if spans == [] then text[cursor..]
    else
      var s := spans[0];
      text[cursor..s.start] + (Tagged(text[s.start..s.end], color) + Marked(text, spans[1..], s.end, color))
  }

  /** One mention in its tag, character by character. */
  lemma TagIs(text: string, s: Span, color: string)
    requires s.start <= s.end <= |text|
    ensures Marked(text, [s], 0, color)
            == text[..s.start] + ("<font color=\"" + color + "\">" + Escape(text[s.start..s.end]) + "</font>" + text[s.end..])
  {
    assert [s][1..] == [] && text[0..s.start] == text[..s.start];
    assert Marked(text, [], s.end, color) == text[s.end..];
  }

  lemma Regroup(a: string, b: string, c: string, d: string)
    ensures ((a + b) + c) + d == a + (b + (c + d))
  {
  }

  method MarkdownWithMentions(text: string, spans: seq<Span>, color: string) returns (out: string)
    requires Spanning(spans, 0, |text|)
    ensures out == Marked(text, spans, 0, color)
  {
    if spans == [] { return text; }
    out := "";
    var cursor: nat := 0;
    for i := 0 to |spans|
      invariant Spanning(spans[i..], cursor, |text|)
      invariant out + Marked(text, spans[i..], cursor, color) == Marked(text, spans, 0, color)
    {
      var span := spans[i];
      assert spans[i..][0] == span && spans[i..][1..] == spans[i + 1..];
      var escaped := EscapeMarkdown(text[span.start..span.end]);
      ghost var before := out;
      out := out + text[cursor..span.start];
      out := out + (Open(color) + escaped + CLOSE);
      Regroup(before, text[cursor..span.start], Tagged(text[span.start..span.end], color),
              Marked(text, spans[i + 1..], span.end, color));
      cursor := span.end;
    }
    out := out + text[cursor..];
  }

  // ----- nothing is lost -----

  /** Undo the markup: gaps of known lengths as they stand, each followed by a tag, escaped text and
      the end tag. */
  function Unmarked(out: string, gaps: seq<nat>, color: string): Option<string>
    decreases |gaps|
  {
    if gaps == [] then Some(out)
    else if !(gaps[0] <= |out| && Open(color) <= out[gaps[0]..]) then None
    else
      var (inner, rest) := ReadEscaped(out[gaps[0]..][|Open(color)|..]);
      if !(CLOSE <= rest) then None
      else
        match Unmarked(rest[|CLOSE|..], gaps[1..], color)
        case None => None
        case Some(more) => Some(out[..gaps[0]] + (inner + more))
  }

  function Gaps(spans: seq<Span>, cursor: nat, len: nat): (gaps: seq<nat>)
    requires Spanning(spans, cursor, len)
    ensures |gaps| == |spans|
    decreases |spans|
  {
    if spans == [] then [] else [spans[0].start - cursor] + Gaps(spans[1..], spans[0].end, len)
  }

  lemma OneMention(gap: string, inner: string, more: string, color: string)
    ensures var out := gap + (Tagged(inner, color) + more);
            && Open(color) <= out[|gap|..]
            && ReadEscaped(out[|gap|..][|Open(color)|..]) == (inner, CLOSE + more)
            && out[..|gap|] == gap
  {
    SplitConcat(gap, Tagged(inner, color) + more);
    assert Tagged(inner, color) + more == Open(color) + (Escape(inner) + (CLOSE + more));
    SplitConcat(Open(color), Escape(inner) + (CLOSE + more));
    EscapeRoundTrip(inner, CLOSE + more);
  }

  lemma UnmarkOne(gap: string, inner: string, more: string, gaps: seq<nat>, color: string, tail: string)
    requires Unmarked(more, gaps, color) == Some(tail)
    ensures Unmarked(gap + (Tagged(inner, color) + more), [|gap|] + gaps, color) == Some(gap + (inner + tail))
  {
    OneMention(gap, inner, more, color);
    SplitConcat(CLOSE, more);
    assert ([|gap|] + gaps)[1..] == gaps;
  }

  lemma Rejoin(text: string, a: nat, b: nat, c: nat)
    requires a <= b <= c <= |text|
    ensures text[a..b] + (text[b..c] + text[c..]) == text[a..]
  {
  }

  /** Mention markup loses nothing: undoing tags and escapes rebuilds the text. */
  lemma {:induction false} MarkupRoundTrip(text: string, spans: seq<Span>, cursor: nat, color: string)
    requires Spanning(spans, cursor, |text|)
    ensures Unmarked(Marked(text, spans, cursor, color), Gaps(spans, cursor, |text|), color) == Some(text[cursor..])
    decreases |spans|
  {
    if spans != [] {
      var s, rest := spans[0], spans[1..];
      MarkupRoundTrip(text, rest, s.end, color);
      UnmarkOne(text[cursor..s.start], text[s.start..s.end], Marked(text, rest, s.end, color),
                Gaps(rest, s.end, |text|), color, text[s.end..]);
      Rejoin(text, cursor, s.start, s.end);
    }
  }

  // ----- the markup tells spans and colours apart -----

  /** Mentions start with an at sign, as mello_core finds them. */
  predicate AtSigns(text: string, spans: seq<Span>) {
    forall i :: 0 <= i < |spans| ==> spans[i].start < spans[i].end <= |text| && text[spans[i].start] == '@'
  }

  lemma {:induction false} TagAt(text: string, spans: seq<Span>, color: string, cursor: nat)
    requires Spanning(spans, cursor, |text|) && spans != []
    ensures var out, at := Marked(text, spans, cursor, color), spans[0].start - cursor; at < |out| && out[at] == '<'
  {
    var tagged := Tagged(text[spans[0].start..spans[0].end], color);
    assert tagged[0] == '<';
  }

  /** Before the first tag there is the text itself. */
  lemma {:induction false} TextBefore(text: string, spans: seq<Span>, color: string, cursor: nat, k: nat)
    requires Spanning(spans, cursor, |text|)
    requires cursor <= k < |text| && (spans == [] || k < spans[0].start)
    ensures var out := Marked(text, spans, cursor, color); k - cursor < |out| && out[k - cursor] == text[k]
  {
    if spans != [] { assert text[cursor..spans[0].start][k - cursor] == text[k]; }
  }

  /** A tag opens where the other markup still has the text's at sign. */
  lemma {:induction false} OpensEarlier(text: string, a: seq<Span>, ca: string, b: seq<Span>, cb: string, cursor: nat)
    requires Spanning(a, cursor, |text|) && Spanning(b, cursor, |text|) && a != [] && AtSigns(text, a)
    requires b == [] || a[0].start < b[0].start
    ensures Marked(text, a, cursor, ca) != Marked(text, b, cursor, cb)
  {
    TagAt(text, a, ca, cursor);
    TextBefore(text, b, cb, cursor, a[0].start);
  }

  lemma OpensTogether(gap: string, x: string, more: string, ca: string, y: string, more': string, cb: string)
    requires |ca| == |cb| && gap + (Tagged(x, ca) + more) == gap + (Tagged(y, cb) + more')
    ensures ca == cb && x == y && more == more'
  {
    OneMention(gap, x, more, ca);
    OneMention(gap, y, more', cb);
    SplitConcat(CLOSE, more);
    SplitConcat(CLOSE, more');
    var prefix := "<font color=\"";
    assert Open(ca)[|prefix|..|prefix| + |ca|] == ca && Open(cb)[|prefix|..|prefix| + |cb|] == cb;
  }

  lemma {:induction false} FirstTag(text: string, a: seq<Span>, ca: string, b: seq<Span>, cb: string, cursor: nat)
    requires Spanning(a, cursor, |text|) && Spanning(b, cursor, |text|) && a != [] && b != []
    requires |ca| == |cb| && a[0].start == b[0].start && Marked(text, a, cursor, ca) == Marked(text, b, cursor, cb)
    ensures a[0] == b[0] && ca == cb
    ensures Marked(text, a[1..], a[0].end, ca) == Marked(text, b[1..], b[0].end, cb)
  {
    var x, y := text[a[0].start..a[0].end], text[b[0].start..b[0].end];
    OpensTogether(text[cursor..a[0].start], x, Marked(text, a[1..], a[0].end, ca), ca,
                  y, Marked(text, b[1..], b[0].end, cb), cb);
    assert |x| == |y|;
  }

  /** Two markups of one text are equal if and only if they tag the same spans in the same colour. */
  lemma {:induction false} MarkupDecides(text: string, a: seq<Span>, ca: string, b: seq<Span>, cb: string, cursor: nat)
    requires Spanning(a, cursor, |text|) && Spanning(b, cursor, |text|) && AtSigns(text, a) && AtSigns(text, b)
    requires |ca| == |cb|
    ensures Marked(text, a, cursor, ca) == Marked(text, b, cursor, cb) <==> a == b && (a == [] || ca == cb)
    decreases |a|
  {
    if a == [] {
      if b != [] { OpensEarlier(text, b, cb, a, ca, cursor); }
    } else if b == [] || a[0].start < b[0].start {
      OpensEarlier(text, a, ca, b, cb, cursor);
    } else if b[0].start < a[0].start {
      OpensEarlier(text, b, cb, a, ca, cursor);
    } else if Marked(text, a, cursor, ca) == Marked(text, b, cursor, cb) {
      FirstTag(text, a, ca, b, cb, cursor);
      MarkupDecides(text, a[1..], ca, b[1..], cb, a[0].end);
      assert a == [a[0]] + a[1..] && b == [b[0]] + b[1..];
    }
  }
}
