/** The masking lexer of client/src/a11y_lint.rs: strings and comments become spaces, in place, so
    that braces inside them do not count. Texts are UTF-8 bytes. */
module A11yMask {
  import opened Bytes
  import opened Collections
  import opened Utf8

  const NEWLINE: Byte := 10
  const SPACE: Byte := 32
  const QUOTE: Byte := 34
  const STAR: Byte := 42
  const SLASH: Byte := 47
  const BACKSLASH: Byte := 92
  const OPEN: Byte := 123
  const CLOSE: Byte := 125

  /** "a11y: none" */
  const MARKER: seq<Byte> := [97, 49, 49, 121, 58, 32, 110, 111, 110, 101]

  // ----- the lexer, one byte at a time -----

  /** What the lexer is inside of, before it reads a byte. */
  datatype State =
    | Code
    | Str | StrEscape
    | Line(marked: bool)
    | CommentOpen | Comment | CommentClose

  predicate At(s: seq<Byte>, k: nat, b: Byte) { k < |s| && s[k] == b }

  /** The end of the line that holds byte `k`. */
  function LineEnd(s: seq<Byte>, k: nat): (e: nat)
    requires k <= |s|
    ensures k <= e <= |s|
    ensures forall j :: k <= j < e ==> s[j] != NEWLINE
    ensures e < |s| ==> s[e] == NEWLINE
    decreases |s| - k
  {
    if k == |s| || s[k] == NEWLINE then k else LineEnd(s, k + 1)
  }

  predicate LineStart(s: seq<Byte>, k: nat) { At(s, k, SLASH) && At(s, k + 1, SLASH) }

  predicate CommentStart(s: seq<Byte>, k: nat) { At(s, k, SLASH) && At(s, k + 1, STAR) }

  predicate Marked(s: seq<Byte>, k: nat)
    requires k <= |s|
  {
    Contains(s[k..LineEnd(s, k)], MARKER)
  }

  function NextState(s: seq<Byte>, k: nat, st: State): State
    requires k < |s|
  {
    match st
    case Code =>
      if s[k] == QUOTE then Str
      else if LineStart(s, k) then Line(Marked(s, k))
      else if CommentStart(s, k) then CommentOpen
      else Code
    case Str => if s[k] == QUOTE then Code else if s[k] == BACKSLASH then StrEscape else Str
    case StrEscape => Str
    case Line(m) => if k + 1 < |s| && s[k + 1] == NEWLINE then Code else st
    case CommentOpen => Comment
    case Comment => if At(s, k, STAR) && At(s, k + 1, SLASH) then CommentClose else Comment
    case CommentClose => Code
  }

  function StateAt(s: seq<Byte>, k: nat): State
    requires k <= |s|
  {
    if k == 0 then Code else NextState(s, k - 1, StateAt(s, k - 1))
  }

  /** Byte `k` is inside a string (its quotes are not) or belongs to a comment that is not marked. */
  predicate Hidden(s: seq<Byte>, k: nat)
    requires k < |s|
  {
    match StateAt(s, k)
    case Code => (LineStart(s, k) && !Marked(s, k)) || CommentStart(s, k)
    case Str => s[k] != QUOTE
    case Line(m) => !m
    case _ => true
  }

  function Blank(b: Byte): Byte { if b == NEWLINE then b else SPACE }

  function MaskedByte(s: seq<Byte>, k: nat): Byte
    requires k < |s|
  {
    if Hidden(s, k) then Blank(s[k]) else s[k]
  }

  function Mask(s: seq<Byte>): (m: seq<Byte>)
    ensures |m| == |s| && forall k :: 0 <= k < |s| ==> m[k] == MaskedByte(s, k)
  {
    seq(|s|, k requires 0 <= k < |s| => MaskedByte(s, k))
  }

  // ----- the skips of the scanner -----

  /** The lexer stays in the comment up to the end of the line, where it is back in code. */
  lemma InLine(s: seq<Byte>, i: nat, k: nat)
    requires i < |s| && StateAt(s, i) == Code && LineStart(s, i) && i < k <= LineEnd(s, i)
    ensures StateAt(s, k) == if k == LineEnd(s, i) < |s| then Code else Line(Marked(s, i))
  {
    if k > i + 1 {
      InLine(s, i, k - 1);
    }
  }

  /** The first comment closer at or after `k`, or the end of the text. */
  function FindCloser(s: seq<Byte>, k: nat): (j: nat)
    requires k <= |s|
    ensures k <= j <= |s|
    ensures forall m :: k <= m < j ==> !(At(s, m, STAR) && At(s, m + 1, SLASH))
    ensures j < |s| ==> At(s, j, STAR) && At(s, j + 1, SLASH)
    decreases |s| - k
  {
    if k == |s| || (At(s, k, STAR) && At(s, k + 1, SLASH)) then k else FindCloser(s, k + 1)
  }

  function CommentEnd(s: seq<Byte>, i: nat): (e: nat)
    requires CommentStart(s, i)
    ensures i + 2 <= e <= |s|
  {
    var j := FindCloser(s, i + 2);
    if j < |s| then j + 2 else j
  }

  lemma InComment(s: seq<Byte>, i: nat, k: nat)
    requires CommentStart(s, i) && StateAt(s, i) == Code && i < k <= CommentEnd(s, i)
    ensures var j := FindCloser(s, i + 2);
            StateAt(s, k) == if k == i + 1 then CommentOpen else if k <= j then Comment
                             else if k == j + 1 then CommentClose else Code
  {
    if k > i + 1 { InComment(s, i, k - 1); }
  }

  // ----- the scanner -----

  /** `out` is masked up to `i` and untouched from there. */
  ghost predicate Partly(s: seq<Byte>, out: seq<Byte>, i: nat) {
    && |out| == |s|
    && (forall k :: 0 <= k < |s| ==> out[k] == if k < i then MaskedByte(s, k) else s[k])
  }

  lemma LineHidden(s: seq<Byte>, i: nat)
    requires LineStart(s, i) && StateAt(s, i) == Code
    ensures forall k :: i <= k < LineEnd(s, i) ==> Hidden(s, k) == !Marked(s, i) && s[k] != NEWLINE
    ensures LineEnd(s, i) < |s| ==> StateAt(s, LineEnd(s, i)) == Code
  {
    forall k | i <= k <= LineEnd(s, i) ensures k < LineEnd(s, i) ==> Hidden(s, k) == !Marked(s, i) {
      if i < k { InLine(s, i, k); }
    }
    InLine(s, i, LineEnd(s, i));
  }

  lemma CommentHidden(s: seq<Byte>, i: nat)
    requires CommentStart(s, i) && StateAt(s, i) == Code
    ensures forall k :: i <= k < CommentEnd(s, i) ==> Hidden(s, k)
    ensures CommentEnd(s, i) < |s| ==> StateAt(s, CommentEnd(s, i)) == Code
  {
    forall k | i <= k < CommentEnd(s, i) ensures Hidden(s, k) {
      if i < k { InComment(s, i, k); }
    }
    InComment(s, i, CommentEnd(s, i));
  }

  /** Bytes that are not hidden need no work. */
  lemma PartlySkip(s: seq<Byte>, out: seq<Byte>, i: nat, end: nat)
    requires Partly(s, out, i) && i <= end <= |s| && forall k :: i <= k < end ==> !Hidden(s, k)
    ensures Partly(s, out, end)
  {
  }

  lemma PlainCode(s: seq<Byte>, out: seq<Byte>, i: nat)
    requires i < |s| && StateAt(s, i) == Code && !LineStart(s, i) && !CommentStart(s, i)
    requires Partly(s, out, i)
    ensures Partly(s, out, i + 1)
    ensures StateAt(s, i + 1) == if s[i] == QUOTE then Str else Code
  {
    assert !Hidden(s, i);
  }

  /** A byte inside a string becomes a blank. */
  lemma StringByte(s: seq<Byte>, out: seq<Byte>, j: nat)
    requires j < |s| && Partly(s, out, j)
    requires (StateAt(s, j) == Str && s[j] != QUOTE) || StateAt(s, j) == StrEscape
    ensures Partly(s, out[j := Blank(s[j])], j + 1)
    ensures StateAt(s, j + 1) == if StateAt(s, j) == Str && s[j] == BACKSLASH then StrEscape else Str
  {
  }

  /** One character inside a string, escaped or not. */
  method MaskStringChar(src: seq<Byte>, out: array<Byte>, i: nat) returns (j: nat)
    requires i < |src| && StateAt(src, i) == Str && src[i] != QUOTE && Partly(src, out[..], i)
    modifies out
    ensures i < j && (j < |src| ==> StateAt(src, j) == Str)
    ensures Partly(src, out[..], j)
  {
    j := i;
    if src[j] == BACKSLASH {
      StringByte(src, out[..], j);
      out[j] := SPACE;
      j := j + 1;
    }
    if j < |src| {
      StringByte(src, out[..], j);
      if src[j] != NEWLINE { out[j] := SPACE; }
    }
    j := j + 1;
  }

  /** Blank a string from just after its opening quote; `j` is past the closing one. */
  method MaskString(src: seq<Byte>, out: array<Byte>, i: nat) returns (j: nat)
    requires i <= |src| && (i < |src| ==> StateAt(src, i) == Str)
    requires Partly(src, out[..], i)
    modifies out
    ensures i < j && (j < |src| ==> StateAt(src, j) == Code)
    ensures Partly(src, out[..], j)
  {
    j := i;
    while j < |src| && src[j] != QUOTE
      invariant i <= j && (j < |src| ==> StateAt(src, j) == Str)
      invariant Partly(src, out[..], j)
      decreases |src| - j
    {
      j := MaskStringChar(src, out, j);
    }
    j := j + 1;
  }

  /** Blank `[i, end)` except its newlines. */
  method Fill(src: seq<Byte>, out: array<Byte>, i: nat, end: nat)
    requires i <= end <= |src| && Partly(src, out[..], i)
    requires forall k :: i <= k < end ==> Hidden(src, k)
    modifies out
    ensures Partly(src, out[..], end)
  {
    for c := i to end
      invariant Partly(src, out[..], c)
    {
      if out[c] != NEWLINE { out[c] := SPACE; }
    }
  }

  /** A line comment is blanked unless it carries the marker. */
  method MaskLine(src: seq<Byte>, out: array<Byte>, i: nat) returns (end: nat)
    requires LineStart(src, i) && StateAt(src, i) == Code && Partly(src, out[..], i)
    modifies out
    ensures i < end <= |src| && (end < |src| ==> StateAt(src, end) == Code)
    ensures Partly(src, out[..], end)
  {
    end := LineEnd(src, i);
    LineHidden(src, i);
    if !Marked(src, i) { Fill(src, out, i, end); } else { PartlySkip(src, out[..], i, end); }
  }

  method MaskComment(src: seq<Byte>, out: array<Byte>, i: nat) returns (end: nat)
    requires CommentStart(src, i) && StateAt(src, i) == Code && Partly(src, out[..], i)
    modifies out
    ensures i < end <= |src| && (end < |src| ==> StateAt(src, end) == Code)
    ensures Partly(src, out[..], end)
  {
    end := CommentEnd(src, i);
    CommentHidden(src, i);
    Fill(src, out, i, end);
  }

  /** The scanner: an index runs over the source and skips whole strings and comments. */
  method MaskInPlace(src: seq<Byte>) returns (out: array<Byte>)
    ensures fresh(out) && out[..] == Mask(src)
  {
    out := new Byte[|src|](k requires 0 <= k < |src| => src[k]);
    var i := 0;
    while i < |src|
      invariant i < |src| ==> StateAt(src, i) == Code
      invariant Partly(src, out[..], i)
      decreases |src| - i
    {
      if src[i] == QUOTE {
        PlainCode(src, out[..], i);
        i := MaskString(src, out, i + 1);
      } else if LineStart(src, i) {
        i := MaskLine(src, out, i);
      } else if CommentStart(src, i) {
        i := MaskComment(src, out, i);
      } else {
        PlainCode(src, out[..], i);
        i := i + 1;
      }
    }
  }

  // ----- what masking promises -----

  /** Newlines stay where they are and no newline is made; what is not hidden is unchanged. */
  lemma NewlinesKept(s: seq<Byte>, k: nat)
    requires k < |s|
    ensures Mask(s)[k] == NEWLINE <==> s[k] == NEWLINE
  {
  }

  /** No brace inside a string or an unmarked comment survives; every other brace does. */
  lemma BracesCountOutside(s: seq<Byte>, k: nat, brace: Byte)
    requires k < |s| && brace in {'{' as int, '}' as int}
    ensures Mask(s)[k] == brace <==> s[k] == brace && !Hidden(s, k)
  {
  }

  /** A line comment with the exemption marker is kept byte for byte, marker included. */
  lemma MarkedLineKept(s: seq<Byte>, i: nat)
    requires LineStart(s, i) && StateAt(s, i) == Code && Marked(s, i)
    ensures Mask(s)[i..LineEnd(s, i)] == s[i..LineEnd(s, i)]
    ensures Contains(Mask(s)[i..LineEnd(s, i)], MARKER)
  {
    LineHidden(s, i);
  }

  // ----- the tokens, character by character -----

  /** `c` stands at byte `k`. */
  predicate Is(s: seq<Byte>, k: int, c: char) { 0 <= k < |s| && s[k] == c as int }

  predicate StandsAt(s: seq<Byte>, k: nat, text: string) { forall m :: 0 <= m < |text| ==> Is(s, k + m, text[m]) }

  /** `text` stands somewhere in `[from, to)`. */
  ghost predicate Holds(s: seq<Byte>, from: nat, to: nat, text: string) {
    exists k: nat :: from <= k && k + |text| <= to && StandsAt(s, k, text)
  }

  /** Blanks but for the newlines. */
  predicate Blanked(s: seq<Byte>, m: seq<Byte>, from: nat, to: nat) {
    && from <= to <= |s| == |m|
    && forall k :: from <= k < to ==> if Is(s, k, '\n') then Is(m, k, '\n') else Is(m, k, ' ')
  }

  lemma MarkerText()
    ensures |MARKER| == |"a11y: none"| && forall m :: 0 <= m < |MARKER| ==> MARKER[m] == "a11y: none"[m] as int
  {
  }

  lemma MarkerAt(s: seq<Byte>, i: nat, e: nat, k: nat)
    requires i <= k && k + |MARKER| <= e <= |s|
    ensures PartAt(s[i..e], MARKER, k - i) <==> StandsAt(s, k, "a11y: none")
  {
    MarkerText();
    var part := s[i..e][k - i..k - i + |MARKER|];
    assert forall m :: 0 <= m < |MARKER| ==> part[m] == s[k + m];
    if part == MARKER {
      forall m | 0 <= m < |MARKER| ensures Is(s, k + m, "a11y: none"[m]) { assert part[m] == MARKER[m]; }
    }
    if StandsAt(s, k, "a11y: none") {
      forall m | 0 <= m < |MARKER| ensures part[m] == MARKER[m] { assert Is(s, k + m, "a11y: none"[m]); }
    }
  }

  lemma MarkedMeansHolds(s: seq<Byte>, i: nat)
    requires i <= |s|
    ensures Marked(s, i) <==> Holds(s, i, LineEnd(s, i), "a11y: none")
  {
    MarkerText();
    var e := LineEnd(s, i);
    if Marked(s, i) {
      var k :| 0 <= k <= e - i && PartAt(s[i..e], MARKER, k);
      MarkerAt(s, i, e, i + k);
    }
    if Holds(s, i, e, "a11y: none") {
      var k: nat :| i <= k && k + |MARKER| <= e && StandsAt(s, k, "a11y: none");
      MarkerAt(s, i, e, k);
      assert PartAt(s[i..e], MARKER, k - i);
    }
  }

  /** The text begins in code, and code that starts no string and no comment stays as it is. */
  lemma CodeStays(s: seq<Byte>, i: nat)
    requires i < |s| && StateAt(s, i) == Code && !Is(s, i, '"')
    requires !(Is(s, i, '/') && (Is(s, i + 1, '/') || Is(s, i + 1, '*')))
    ensures StateAt(s, 0) == Code && Mask(s)[i] == s[i] && StateAt(s, i + 1) == Code
  {
  }

  lemma LineEndIs(s: seq<Byte>, i: nat, e: nat)
    requires i <= e <= |s| && (forall j :: i <= j < e ==> !Is(s, j, '\n')) && (e < |s| ==> Is(s, e, '\n'))
    ensures LineEnd(s, i) == e
    decreases e - i
  {
    if i < e {
      assert !Is(s, i, '\n');
      LineEndIs(s, i + 1, e);
    }
  }

  lemma LineBlanked(s: seq<Byte>, i: nat)
    requires LineStart(s, i) && StateAt(s, i) == Code && !Marked(s, i)
    ensures Blanked(s, Mask(s), i, LineEnd(s, i)) && Mask(s)[i] != s[i]
  {
    LineHidden(s, i);
  }

  lemma FirstDiffers(m: seq<Byte>, s: seq<Byte>, i: nat, e: nat)
    requires i < e <= |s| == |m| && m[i] != s[i]
    ensures m[i..e] != s[i..e]
  {
    assert m[i..e][0] != s[i..e][0];
  }

  /** Two slashes in code start a comment up to the end of the line. It is kept exactly when
      "a11y: none" stands anywhere in it, and otherwise blanked. */
  lemma LineComment(s: seq<Byte>, i: nat, e: nat)
    requires i < e <= |s| && StateAt(s, i) == Code && Is(s, i, '/') && Is(s, i + 1, '/')
    requires (forall j :: i <= j < e ==> !Is(s, j, '\n')) && (e < |s| ==> Is(s, e, '\n'))
    ensures Mask(s)[i..e] == s[i..e] <==> Holds(s, i, e, "a11y: none")
    ensures !Holds(s, i, e, "a11y: none") ==> Blanked(s, Mask(s), i, e)
    ensures e < |s| ==> StateAt(s, e) == Code
  {
    LineEndIs(s, i, e);
    MarkedMeansHolds(s, i);
    InLine(s, i, e);
    if Marked(s, i) {
      MarkedLineKept(s, i);
    } else {
      LineBlanked(s, i);
      FirstDiffers(Mask(s), s, i, e);
    }
  }

  /** A slash and a star in code start a comment up to and with the first star and slash after them,
      or the end of the text (`e`). */
  lemma BlockComment(s: seq<Byte>, i: nat, e: nat)
    requires i < |s| && StateAt(s, i) == Code && Is(s, i, '/') && Is(s, i + 1, '*') && i + 2 <= e <= |s|
    requires if i + 4 <= e && Is(s, e - 2, '*') && Is(s, e - 1, '/')
             then forall m :: i + 2 <= m < e - 2 ==> !(Is(s, m, '*') && Is(s, m + 1, '/'))
             else e == |s| && forall m :: i + 2 <= m < e ==> !(Is(s, m, '*') && Is(s, m + 1, '/'))
    ensures Blanked(s, Mask(s), i, e) && (e < |s| ==> StateAt(s, e) == Code)
  {
    var j := FindCloser(s, i + 2);
    if j < |s| { assert Is(s, j, '*') && Is(s, j + 1, '/'); }
    if i + 4 <= e && Is(s, e - 2, '*') && Is(s, e - 1, '/') { assert At(s, e - 2, STAR) && At(s, e - 1, SLASH); }
    assert CommentEnd(s, i) == e;
    CommentHidden(s, i);
  }

  /** How many backslashes stand directly before byte `k` of a string opened at `i`. */
  function Escapes(s: seq<Byte>, i: nat, k: nat): nat
    requires i < k <= |s|
  {
    if k - 1 > i && Is(s, k - 1, '\\') then 1 + Escapes(s, i, k - 1) else 0
  }

  /** `j` is the first quote after `i` without an odd number of backslashes before it, or the end. */
  ghost predicate Closes(s: seq<Byte>, i: nat, j: nat) {
    && i < j <= |s| && (j < |s| ==> Is(s, j, '"') && Escapes(s, i, j) % 2 == 0)
    && forall m :: i < m < j && Is(s, m, '"') ==> Escapes(s, i, m) % 2 == 1
  }

  lemma {:induction false} InString(s: seq<Byte>, i: nat, j: nat, k: nat)
    requires i < |s| && StateAt(s, i) == Code && Is(s, i, '"') && Closes(s, i, j) && i < k <= j
    ensures StateAt(s, k) == if Escapes(s, i, k) % 2 == 1 then StrEscape else Str
  {
    if k > i + 1 { InString(s, i, j, k - 1); }
  }

  /** A quote in code starts a string up to the first quote that is not escaped, or the end of the
      text. The quotes stay, what is between them is blanked. */
  lemma StringText(s: seq<Byte>, i: nat, j: nat)
    requires i < |s| && StateAt(s, i) == Code && Is(s, i, '"') && Closes(s, i, j)
    ensures Blanked(s, Mask(s), i + 1, j) && Mask(s)[i] == s[i]
    ensures j < |s| ==> Mask(s)[j] == s[j] && StateAt(s, j + 1) == Code
  {
    forall k | i < k < j ensures Hidden(s, k) { InString(s, i, j, k); }
    InString(s, i, j, j);
  }

  /** What the lexer is inside of when it reads the masked text. */
  function Collapsed(st: State): State {
    match st
    case StrEscape => Str
    case Line(m) => if m then st else Code
    case CommentOpen => Code
    case Comment => Code
    case CommentClose => Code
    case _ => st
  }

  lemma SameLineEnd(s: seq<Byte>, t: seq<Byte>, k: nat)
    requires |s| == |t| && k <= |s| && forall j :: 0 <= j < |s| ==> (t[j] == NEWLINE <==> s[j] == NEWLINE)
    ensures LineEnd(s, k) == LineEnd(t, k)
    decreases |s| - k
  {
    if k < |s| && s[k] != NEWLINE { SameLineEnd(s, t, k + 1); }
  }

  /** In code, the masked text starts a string where the source does, starts a line comment only
      where the source has a marked one, and starts no block comment. */
  lemma MaskedCode(s: seq<Byte>, i: nat)
    requires i < |s| && StateAt(s, i) == Code
    ensures Mask(s)[i] == QUOTE <==> s[i] == QUOTE
    ensures LineStart(Mask(s), i) <==> LineStart(s, i) && Marked(s, i)
    ensures LineStart(Mask(s), i) ==> Marked(Mask(s), i)
    ensures !CommentStart(Mask(s), i)
  {
    if LineStart(s, i) {
      LineHidden(s, i);
      SameLineEnd(s, Mask(s), i);
      if Marked(s, i) {
        MarkedLineKept(s, i);
        assert Mask(s)[i] == s[i] && Mask(s)[i + 1] == s[i + 1];
      }
    }
  }

  lemma MaskedStep(s: seq<Byte>, k: nat)
    requires k < |s| && StateAt(s, k) != Code
    ensures NextState(Mask(s), k, Collapsed(StateAt(s, k))) == Collapsed(NextState(s, k, StateAt(s, k)))
  {
    match StateAt(s, k) {
      case Line(m) => if k + 1 < |s| { NewlinesKept(s, k + 1); }
      case _ =>
    }
  }

  lemma MaskedCodeStep(s: seq<Byte>, k: nat)
    requires k < |s| && StateAt(s, k) == Code
    ensures NextState(Mask(s), k, Code) == Collapsed(NextState(s, k, Code))
  {
    MaskedCode(s, k);
  }

  /** The lexer walks the masked text in step with the source. */
  lemma {:induction false} MaskedStates(s: seq<Byte>, k: nat)
    requires k <= |s|
    ensures StateAt(Mask(s), k) == Collapsed(StateAt(s, k))
  {
    if k > 0 {
      MaskedStates(s, k - 1);
      if StateAt(s, k - 1) == Code { MaskedCodeStep(s, k - 1); } else { MaskedStep(s, k - 1); }
    }
  }

  /** Masking a masked text changes nothing. */
  lemma MaskIsIdempotent(s: seq<Byte>)
    ensures Mask(Mask(s)) == Mask(s)
  {
    forall k | 0 <= k < |s| ensures MaskedByte(Mask(s), k) == Mask(s)[k] {
      MaskedStates(s, k);
      if StateAt(s, k) == Code { MaskedCode(s, k); }
    }
  }

  // ----- the masked text is still UTF-8 -----

  /** Inside one character the lexer cannot change its mind about hiding. */
  lemma CharHiddenTogether(s: seq<Byte>, k: nat, j: nat)
    requires k <= j < |s| && forall i :: k <= i <= j ==> s[i] >= 128
    ensures Hidden(s, j) == Hidden(s, k)
  {
    if k < j { CharHiddenTogether(s, k, j - 1); }
  }

  lemma BlankRun(m: seq<Byte>, k: nat, n: nat)
    requires k + n <= |m| && (forall j :: k <= j < k + n ==> m[j] < 128) && Utf8From(m, k + n)
    ensures Utf8From(m, k)
    decreases n
  {
    if n > 0 { BlankRun(m, k + 1, n - 1); }
  }

  lemma MaskedChar(s: seq<Byte>, m: seq<Byte>, k: nat)
    requires |m| == |s| && k < |s| && CharLength(s, k) > 0 && Utf8From(m, k + CharLength(s, k))
    requires var n := CharLength(s, k);
             (forall j :: k <= j < k + n ==> m[j] < 128) || (forall j :: k <= j < k + n ==> m[j] == s[j])
    ensures Utf8From(m, k)
  {
    var n := CharLength(s, k);
    if forall j :: k <= j < k + n ==> m[j] < 128 {
      BlankRun(m, k, n);
    } else {
      SameChar(s, m, k);
      CharThenRest(m, k);
    }
  }

  /** A character is blanked as a whole or kept as a whole. */
  lemma CharAllOrNothing(s: seq<Byte>, k: nat)
    requires k < |s| && CharLength(s, k) > 0
    ensures var n, m := CharLength(s, k), Mask(s);
            (forall j :: k <= j < k + n ==> m[j] < 128) || (forall j :: k <= j < k + n ==> m[j] == s[j])
  {
    var n := CharLength(s, k);
    if s[k] >= 128 {
      forall j | k <= j < k + n ensures Hidden(s, j) == Hidden(s, k) { CharHiddenTogether(s, k, j); }
    }
  }

  /** Masking never cuts a character: the result of masking valid UTF-8 is valid UTF-8, so the
      conversion back to a string cannot fail. */
  lemma {:induction false} MaskKeepsUtf8(s: seq<Byte>, k: nat)
    requires k <= |s| && Utf8From(s, k)
    ensures Utf8From(Mask(s), k)
    decreases |s| - k
  {
    if k < |s| {
      MaskKeepsUtf8(s, k + CharLength(s, k));
      CharAllOrNothing(s, k);
      MaskedChar(s, Mask(s), k);
    }
  }
}
