// `renderText` of the itinerary view: two global regular-expression
// replacements applied one after the other,
//   bold:   /\*\*(.+?)\*\*/g    becomes  <strong>$1</strong>
//   italic: /\*([^*\n]+?)\*/g   becomes  <em>$1</em>
// Each replacement is modelled as a left-to-right scanner that cuts its input
// into pieces (a character passed through, or a recognised span), and the
// pieces are then written out with the span's tags. The italic pass scans the
// STRING the bold pass produced, as the code does.
module Emphasis {
  import opened Wrappers
  import opened JsString

  /** One piece of a scanned string: a character copied as it is, or the content of a matched span. */
  datatype Piece = Lit(c: char) | Span(content: string)

  /** Writes one piece out, wrapping a span's content in `open` and `close`. */
  function PieceText(p: Piece, open: string, close: string): string {
    match p
    case Lit(c) => [c]
    case Span(x) => open + x + close
  }

  /** Writes the pieces out in order. */
  function Emit(ps: seq<Piece>, open: string, close: string): string {
    if ps == [] then "" else PieceText(ps[0], open, close) + Emit(ps[1..], open, close)
  }

  // ---------------------------------------------------------------- bold

  /** `**` starts at position `i` of `s`. */
  predicate DoubleStarAt(s: string, i: int) {
    0 <= i && i + 1 < |s| && s[i] == '*' && s[i + 1] == '*'
  }

  /** The bold pattern matches `s[i..e + 2]`: an opening `**` at `i`, a closing `**`
      at `e`, and between them at least one character, none a line terminator. */
  predicate IsBoldMatch(s: string, i: int, e: int) {
    DoubleStarAt(s, i) && i + 3 <= e && DoubleStarAt(s, e)
    && forall k :: i + 2 <= k < e ==> !IsLineTerminator(s[k])
  }

  /** Searches for the closing `**` of a bold span from position `j`, stopping at a line terminator. */
  function BoldCloseFrom(s: string, j: nat): (e: Option<nat>)
    requires j <= |s|
    ensures e.Some? ==> j <= e.value && e.value + 2 <= |s|
    decreases |s| - j
  {
    if DoubleStarAt(s, j) then Some(j)
    else if j < |s| && !IsLineTerminator(s[j]) then BoldCloseFrom(s, j + 1)
    else None
  }

  /** The search finds the first `**` from `j` on, provided no line terminator comes before it. */
  lemma {:induction false} BoldCloseFromSpec(s: string, j: nat)
    requires j <= |s|
    ensures BoldCloseFrom(s, j).Some? ==>
      (DoubleStarAt(s, BoldCloseFrom(s, j).value)
       && forall k :: j <= k < BoldCloseFrom(s, j).value ==> !IsLineTerminator(s[k]) && !DoubleStarAt(s, k))
    ensures BoldCloseFrom(s, j).None? ==> forall f :: j <= f && DoubleStarAt(s, f) ==>
      exists k :: j <= k < f && IsLineTerminator(s[k])
    decreases |s| - j
  {
    if !DoubleStarAt(s, j) && j < |s| {
      BoldCloseFromSpec(s, j + 1);
      if IsLineTerminator(s[j]) {
        forall f | j <= f && DoubleStarAt(s, f) ensures exists k :: j <= k < f && IsLineTerminator(s[k]) {
          assert f != j;
        }
      }
    }
  }

  /** The bold match starting at `i`, if any: the lazy `.+?` takes the FIRST closing `**`
      after at least one content character. */
  function BoldMatchAt(s: string, i: nat): (r: Option<nat>)
    requires i <= |s|
    ensures r.Some? ==> i + 3 <= r.value && r.value + 2 <= |s|
  {
    if DoubleStarAt(s, i) && i + 2 < |s| && !IsLineTerminator(s[i + 2]) then
      BoldCloseFrom(s, i + 3)
    else None
  }

  /** A bold match found at `i` is a match and ends at the first closing `**`; none found means none exists. */
  lemma BoldMatchAtSpec(s: string, i: nat)
    requires i <= |s|
    ensures BoldMatchAt(s, i).Some? ==>
      (IsBoldMatch(s, i, BoldMatchAt(s, i).value)
       && forall e :: i + 3 <= e < BoldMatchAt(s, i).value ==> !DoubleStarAt(s, e))
    ensures BoldMatchAt(s, i).None? ==> forall e :: !IsBoldMatch(s, i, e)
  {
    if DoubleStarAt(s, i) && i + 2 < |s| && !IsLineTerminator(s[i + 2]) {
      BoldCloseFromSpec(s, i + 3);
    }
  }

  /** The pieces of `s[i..]` under the bold replacement: at each position, a match is
      replaced and scanning resumes after it; otherwise one character is copied. */
  function BoldPieces(s: string, i: nat): seq<Piece>
    requires i <= |s|
    decreases |s| - i
  {
    if i == |s| then []
    else
      match BoldMatchAt(s, i)
      case Some(e) => [Span(s[i + 2..e])] + BoldPieces(s, e + 2)
      case None => [Lit(s[i])] + BoldPieces(s, i + 1)
  }

  /** The bold replacement of `renderText`, over the whole string. */
  function BoldPass(s: string): string {
    Emit(BoldPieces(s, 0), "<strong>", "</strong>")
  }

  // -------------------------------------------------------------- italic

  /** The italic pattern matches `s[i..e + 1]`: a `*` at `i` and at `e`, and between them
      at least one character, none of them `*` or a newline (a `\r` is allowed). */
  predicate IsItalicMatch(s: string, i: int, e: int) {
    0 <= i && i + 2 <= e < |s| && s[i] == '*' && s[e] == '*'
    && forall k :: i < k < e ==> s[k] != '*' && s[k] != '\n'
  }

  /** Searches for the closing `*` of an italic span from position `j`. */
  function ItalicCloseFrom(s: string, j: nat): (e: Option<nat>)
    requires j <= |s|
    ensures e.Some? ==> j <= e.value < |s|
    decreases |s| - j
  {
    if j == |s| || s[j] == '\n' then None
    else if s[j] == '*' then Some(j)
    else ItalicCloseFrom(s, j + 1)
  }

  /** The search finds the first `*` from `j` on, provided no newline comes before it. */
  lemma {:induction false} ItalicCloseFromSpec(s: string, j: nat)
    requires j <= |s|
    ensures ItalicCloseFrom(s, j).Some? ==>
      (s[ItalicCloseFrom(s, j).value] == '*'
       && forall k :: j <= k < ItalicCloseFrom(s, j).value ==> s[k] != '*' && s[k] != '\n')
    ensures ItalicCloseFrom(s, j).None? ==> forall f :: j <= f < |s| && s[f] == '*' ==>
      exists k :: j <= k < f && s[k] == '\n'
    decreases |s| - j
  {
    if j < |s| && s[j] != '\n' && s[j] != '*' {
      ItalicCloseFromSpec(s, j + 1);
    } else if j < |s| && s[j] == '\n' {
      forall f | j <= f < |s| && s[f] == '*' ensures exists k :: j <= k < f && s[k] == '\n' {
        assert f != j;
      }
    }
  }

  /** The italic match starting at `i`, if any (the closing `*` is the first one after `i`). */
  function ItalicMatchAt(s: string, i: nat): (r: Option<nat>)
    requires i <= |s|
    ensures r.Some? ==> i + 2 <= r.value < |s|
  {
    if i + 1 < |s| && s[i] == '*' && s[i + 1] != '*' && s[i + 1] != '\n' then
      ItalicCloseFrom(s, i + 2)
    else None
  }

  /** An italic match found at `i` is a match; none found means none exists. */
  lemma ItalicMatchAtSpec(s: string, i: nat)
    requires i <= |s|
    ensures ItalicMatchAt(s, i).Some? ==> IsItalicMatch(s, i, ItalicMatchAt(s, i).value)
    ensures ItalicMatchAt(s, i).None? ==> forall e :: !IsItalicMatch(s, i, e)
  {
    if i + 1 < |s| && s[i] == '*' && s[i + 1] != '*' && s[i + 1] != '\n' {
      ItalicCloseFromSpec(s, i + 2);
    }
  }

  /** The pieces of `s[i..]` under the italic replacement. */
  function ItalicPieces(s: string, i: nat): seq<Piece>
    requires i <= |s|
    decreases |s| - i
  {
    if i == |s| then []
    else
      match ItalicMatchAt(s, i)
      case Some(e) => [Span(s[i + 1..e])] + ItalicPieces(s, e + 1)
      case None => [Lit(s[i])] + ItalicPieces(s, i + 1)
  }

  /** The italic replacement of `renderText`, over the whole string. */
  function ItalicPass(s: string): string {
    Emit(ItalicPieces(s, 0), "<em>", "</em>")
  }

  /** `renderText(raw)`: bold first, then italic on the result. */
  function RenderText(raw: string): string {
    ItalicPass(BoldPass(raw))
  }

  // ------------------------------------------------------------- lemmas

  lemma EmitCons(p: Piece, rest: seq<Piece>, open: string, close: string)
    ensures Emit([p] + rest, open, close) == PieceText(p, open, close) + Emit(rest, open, close)
  {
    assert ([p] + rest)[1..] == rest;
  }

  /** The bold scanner loses nothing: putting `**` back around every span restores the input. */
  lemma {:induction false} BoldRoundTrip(s: string, i: nat)
    requires i <= |s|
    ensures Emit(BoldPieces(s, i), "**", "**") == s[i..]
    decreases |s| - i
  {
    if i < |s| {
      var next := BoldStepRestores(s, i);
      BoldRoundTrip(s, next);
    }
  }

  /** One scanner step at `i` resumes at `next`; restoring the rest restores everything from `i`. */
  lemma BoldStepRestores(s: string, i: nat) returns (next: nat)
    requires i < |s|
    ensures i < next <= |s|
    ensures Emit(BoldPieces(s, next), "**", "**") == s[next..] ==> Emit(BoldPieces(s, i), "**", "**") == s[i..]
  {
    var span, e := BoldStep(s, i);
    if span {
      next := e + 2;
      if Emit(BoldPieces(s, next), "**", "**") == s[next..] {
        SpanCase(BoldPieces(s, i), BoldPieces(s, next), s, i, e, 2, "**", "**");
      }
    } else {
      next := i + 1;
      if Emit(BoldPieces(s, next), "**", "**") == s[next..] {
        LitCase(BoldPieces(s, i), BoldPieces(s, next), s, i, "**", "**");
      }
    }
  }

  /** A span cut out of `s[i..]` at its delimiters is written back as it was. */
  lemma SpanCase(ps: seq<Piece>, rest: seq<Piece>, s: string, i: nat, e: nat, n: nat, open: string, close: string)
    requires i + n <= e && e + n <= |s| && |open| == n && |close| == n
    requires s[i..i + n] == open && s[e..e + n] == close
    requires ps == [Span(s[i + n..e])] + rest
    requires Emit(rest, open, close) == s[e + n..]
    ensures Emit(ps, open, close) == s[i..]
  {
    assert s[i..] == s[i..i + n] + s[i + n..e] + s[e..e + n] + s[e + n..];
    EmitCons(Span(s[i + n..e]), rest, open, close);
  }

  /** A character copied out of `s[i..]` is written back as it was. */
  lemma LitCase(ps: seq<Piece>, rest: seq<Piece>, s: string, i: nat, open: string, close: string)
    requires i < |s|
    requires ps == [Lit(s[i])] + rest
    requires Emit(rest, open, close) == s[i + 1..]
    ensures Emit(ps, open, close) == s[i..]
  {
    assert s[i..] == [s[i]] + s[i + 1..];
    EmitCons(Lit(s[i]), rest, open, close);
  }

  /** One step of the bold scanner at `i`: a span ending at `e`, or one literal character. */
  lemma BoldStep(s: string, i: nat) returns (span: bool, e: nat)
    requires i < |s|
    ensures span ==> i + 2 <= e && e + 2 <= |s|
    ensures span ==> s[i..i + 2] == "**" && s[e..e + 2] == "**"
    ensures span ==> BoldPieces(s, i) == [Span(s[i + 2..e])] + BoldPieces(s, e + 2)
    ensures !span ==> BoldPieces(s, i) == [Lit(s[i])] + BoldPieces(s, i + 1)
  {
    BoldMatchAtSpec(s, i);
    var r := BoldMatchAt(s, i);
    span := r.Some?;
    e := if r.Some? then r.value else 0;
  }

  /** The italic scanner loses nothing: putting `*` back around every span restores the input. */
  lemma {:induction false} ItalicRoundTrip(s: string, i: nat)
    requires i <= |s|
    ensures Emit(ItalicPieces(s, i), "*", "*") == s[i..]
    decreases |s| - i
  {
    if i < |s| {
      var next := ItalicStepRestores(s, i);
      ItalicRoundTrip(s, next);
    }
  }

  /** One scanner step at `i` resumes at `next`; restoring the rest restores everything from `i`. */
  lemma ItalicStepRestores(s: string, i: nat) returns (next: nat)
    requires i < |s|
    ensures i < next <= |s|
    ensures Emit(ItalicPieces(s, next), "*", "*") == s[next..] ==> Emit(ItalicPieces(s, i), "*", "*") == s[i..]
  {
    var span, e := ItalicStep(s, i);
    if span {
      next := e + 1;
      if Emit(ItalicPieces(s, next), "*", "*") == s[next..] {
        SpanCase(ItalicPieces(s, i), ItalicPieces(s, next), s, i, e, 1, "*", "*");
      }
    } else {
      next := i + 1;
      if Emit(ItalicPieces(s, next), "*", "*") == s[next..] {
        LitCase(ItalicPieces(s, i), ItalicPieces(s, next), s, i, "*", "*");
      }
    }
  }

  /** One step of the italic scanner at `i`: a span ending at `e`, or one literal character. */
  lemma ItalicStep(s: string, i: nat) returns (span: bool, e: nat)
    requires i < |s|
    ensures span ==> i + 1 <= e && e + 1 <= |s|
    ensures span ==> s[i..i + 1] == "*" && s[e..e + 1] == "*"
    ensures span ==> ItalicPieces(s, i) == [Span(s[i + 1..e])] + ItalicPieces(s, e + 1)
    ensures !span ==> ItalicPieces(s, i) == [Lit(s[i])] + ItalicPieces(s, i + 1)
  {
    ItalicMatchAtSpec(s, i);
    var r := ItalicMatchAt(s, i);
    span := r.Some?;
    e := if r.Some? then r.value else 0;
  }

  /** Every bold span has at least one character and no line terminator. */
  lemma {:induction false} BoldSpansWellFormed(s: string, i: nat, n: nat)
    requires i <= |s| && n < |BoldPieces(s, i)| && BoldPieces(s, i)[n].Span?
    ensures BoldPieces(s, i)[n].content != []
    ensures forall k :: 0 <= k < |BoldPieces(s, i)[n].content| ==>
      !IsLineTerminator(BoldPieces(s, i)[n].content[k])
    decreases |s| - i
  {
    BoldMatchAtSpec(s, i);
    match BoldMatchAt(s, i)
    case Some(e) =>
      if n > 0 { BoldSpansWellFormed(s, e + 2, n - 1); }
    case None =>
      BoldSpansWellFormed(s, i + 1, n - 1);
  }

  /** Every italic span has at least one character and neither `*` nor a newline. */
  lemma {:induction false} ItalicSpansWellFormed(s: string, i: nat, n: nat)
    requires i <= |s| && n < |ItalicPieces(s, i)| && ItalicPieces(s, i)[n].Span?
    ensures ItalicPieces(s, i)[n].content != []
    ensures '*' !in ItalicPieces(s, i)[n].content && '\n' !in ItalicPieces(s, i)[n].content
    decreases |s| - i
  {
    ItalicMatchAtSpec(s, i);
    match ItalicMatchAt(s, i)
    case Some(e) =>
      if n > 0 { ItalicSpansWellFormed(s, e + 1, n - 1); }
    case None =>
      ItalicSpansWellFormed(s, i + 1, n - 1);
  }

  /** Where no bold match starts, the bold pass copies the characters unchanged. */
  lemma {:induction false} BoldCopies(s: string, i: nat, j: nat)
    requires i <= j <= |s|
    requires forall k :: i <= k < j ==> BoldMatchAt(s, k).None?
    ensures Emit(BoldPieces(s, i), "<strong>", "</strong>")
         == s[i..j] + Emit(BoldPieces(s, j), "<strong>", "</strong>")
    decreases j - i
  {
    if i < j {
      BoldCopies(s, i + 1, j);
      BoldCopyStep(s, i, j);
    }
  }

  /** Where no italic match starts, the italic pass copies the characters unchanged. */
  lemma {:induction false} ItalicCopies(s: string, i: nat, j: nat)
    requires i <= j <= |s|
    requires forall k :: i <= k < j ==> ItalicMatchAt(s, k).None?
    ensures Emit(ItalicPieces(s, i), "<em>", "</em>")
         == s[i..j] + Emit(ItalicPieces(s, j), "<em>", "</em>")
    decreases j - i
  {
    if i < j {
      ItalicCopies(s, i + 1, j);
      ItalicCopyStep(s, i, j);
    }
  }

  /** Where no bold match starts at `i`, copying from `i + 1` extends to copying from `i`. */
  lemma BoldCopyStep(s: string, i: nat, j: nat)
    requires i < j <= |s| && BoldMatchAt(s, i).None?
    ensures Emit(BoldPieces(s, i + 1), "<strong>", "</strong>") == s[i + 1..j] + Emit(BoldPieces(s, j), "<strong>", "</strong>")
        ==> Emit(BoldPieces(s, i), "<strong>", "</strong>") == s[i..j] + Emit(BoldPieces(s, j), "<strong>", "</strong>")
  {
    if Emit(BoldPieces(s, i + 1), "<strong>", "</strong>") == s[i + 1..j] + Emit(BoldPieces(s, j), "<strong>", "</strong>") {
      CopyCase(BoldPieces(s, i), BoldPieces(s, i + 1), s, i, j, "<strong>", "</strong>", Emit(BoldPieces(s, j), "<strong>", "</strong>"));
    }
  }

  /** Where no italic match starts at `i`, copying from `i + 1` extends to copying from `i`. */
  lemma ItalicCopyStep(s: string, i: nat, j: nat)
    requires i < j <= |s| && ItalicMatchAt(s, i).None?
    ensures Emit(ItalicPieces(s, i + 1), "<em>", "</em>") == s[i + 1..j] + Emit(ItalicPieces(s, j), "<em>", "</em>")
        ==> Emit(ItalicPieces(s, i), "<em>", "</em>") == s[i..j] + Emit(ItalicPieces(s, j), "<em>", "</em>")
  {
    if Emit(ItalicPieces(s, i + 1), "<em>", "</em>") == s[i + 1..j] + Emit(ItalicPieces(s, j), "<em>", "</em>") {
      CopyCase(ItalicPieces(s, i), ItalicPieces(s, i + 1), s, i, j, "<em>", "</em>", Emit(ItalicPieces(s, j), "<em>", "</em>"));
    }
  }

  /** A character copied at `i`, followed by a copied stretch up to `j`. */
  lemma CopyCase(ps: seq<Piece>, rest: seq<Piece>, s: string, i: nat, j: nat, open: string, close: string, t: string)
    requires i < j <= |s|
    requires ps == [Lit(s[i])] + rest
    requires Emit(rest, open, close) == s[i + 1..j] + t
    ensures Emit(ps, open, close) == s[i..j] + t
  {
    EmitCons(Lit(s[i]), rest, open, close);
    assert s[i..j] == [s[i]] + s[i + 1..j];
  }

  /** A stretch without `*` is copied unchanged by the italic pass. */
  lemma ItalicCopiesStarFree(s: string, i: nat, j: nat)
    requires i <= j <= |s| && '*' !in s[i..j]
    ensures Emit(ItalicPieces(s, i), "<em>", "</em>")
         == s[i..j] + Emit(ItalicPieces(s, j), "<em>", "</em>")
  {
    StarFreeStretch(s, i, j);
    ItalicCopies(s, i, j);
  }

  /** A stretch without `*` holds no match of either pattern. */
  lemma StarFreeStretch(s: string, i: nat, j: nat)
    requires i <= j <= |s| && '*' !in s[i..j]
    ensures forall k :: i <= k < j ==> !DoubleStarAt(s, k)
    ensures forall k :: i <= k < j ==> ItalicMatchAt(s, k).None?
  {
    forall k | i <= k < j ensures s[k] != '*' {
      assert s[k] == s[i..j][k - i];
    }
  }

  /** `renderText` is the identity on text without `*`. */
  lemma NoStarUnchanged(s: string)
    requires '*' !in s
    ensures RenderText(s) == s
  {
    assert s[0..|s|] == s;
    StarFreeStretch(s, 0, |s|);
    BoldPassCopies(s);
    ItalicPassStarFree(s);
  }

  lemma BoldPassCopies(s: string)
    requires forall k :: 0 <= k < |s| ==> !DoubleStarAt(s, k)
    ensures BoldPass(s) == s
  {
    BoldCopies(s, 0, |s|);
    assert BoldPieces(s, |s|) == [];
    assert s[0..|s|] == s;
  }

  /** The italic pass copies text without `*` unchanged. */
  lemma ItalicPassStarFree(s: string)
    requires '*' !in s
    ensures ItalicPass(s) == s
  {
    assert s[0..|s|] == s;
    StarFreeStretch(s, 0, |s|);
    ItalicCopies(s, 0, |s|);
    assert ItalicPieces(s, |s|) == [];
  }

  lemma ItalicPassCopies(s: string)
    requires forall k, e :: 0 <= k < |s| ==> !IsItalicMatch(s, k, e)
    ensures ItalicPass(s) == s
  {
    forall k | 0 <= k < |s| ensures ItalicMatchAt(s, k).None? {
      ItalicMatchAtSpec(s, k);
    }
    ItalicCopies(s, 0, |s|);
    assert ItalicPieces(s, |s|) == [];
    assert s[0..|s|] == s;
  }

  /** At most one `*` in the text: a lone marker stays literal and nothing else changes. */
  lemma LoneStarUnchanged(s: string)
    requires forall a, b :: 0 <= a < b < |s| && s[a] == '*' ==> s[b] != '*'
    ensures RenderText(s) == s
  {
    BoldPassCopies(s);
    ItalicPassCopies(s);
  }

  /** Bold content as the bold pattern accepts it: non-empty, no line terminator, and here also star-free. */
  predicate PlainBoldContent(x: string) {
    x != [] && '*' !in x && forall k :: 0 <= k < |x| ==> !IsLineTerminator(x[k])
  }

  /** Italic content as the italic pattern accepts it: non-empty, no `*` and no newline. */
  predicate PlainItalicContent(z: string) {
    z != [] && '*' !in z && '\n' !in z
  }

  /** A `**x**` at position `i` is one bold span. */
  lemma BoldSpanAt(s: string, i: nat, x: string)
    requires PlainBoldContent(x)
    requires i + |x| + 4 <= |s| && s[i..i + |x| + 4] == "**" + x + "**"
    ensures BoldPieces(s, i) == [Span(x)] + BoldPieces(s, i + |x| + 4)
  {
    var e := i + |x| + 2;
    forall k | i + 2 <= k < e ensures s[k] == x[k - i - 2] {
      assert s[k] == s[i..i + |x| + 4][k - i];
    }
    assert s[e] == '*' && s[e + 1] == '*' by {
      assert s[e] == s[i..i + |x| + 4][|x| + 2];
      assert s[e + 1] == s[i..i + |x| + 4][|x| + 3];
    }
    assert s[i] == '*' && s[i + 1] == '*' by {
      assert s[i] == s[i..i + |x| + 4][0];
      assert s[i + 1] == s[i..i + |x| + 4][1];
    }
    assert IsBoldMatch(s, i, e);
    BoldMatchAtSpec(s, i);
    var r := BoldMatchAt(s, i);
    assert r == Some(e);
    assert s[i + 2..e] == x;
  }

  /** A `*z*` at position `i` is one italic span. */
  lemma ItalicSpanAt(s: string, i: nat, z: string)
    requires PlainItalicContent(z)
    requires i + |z| + 2 <= |s| && s[i..i + |z| + 2] == "*" + z + "*"
    ensures ItalicPieces(s, i) == [Span(z)] + ItalicPieces(s, i + |z| + 2)
  {
    var e := i + |z| + 1;
    forall k | i < k < e ensures s[k] == z[k - i - 1] {
      assert s[k] == s[i..i + |z| + 2][k - i];
    }
    assert s[e] == '*' by { assert s[e] == s[i..i + |z| + 2][|z| + 1]; }
    assert s[i] == '*' by { assert s[i] == s[i..i + |z| + 2][0]; }
    assert IsItalicMatch(s, i, e);
    ItalicMatchAtSpec(s, i);
    var r := ItalicMatchAt(s, i);
    assert r == Some(e);
    assert s[i + 1..e] == z;
  }

  /** `**x**` becomes `<strong>x</strong>`. */
  lemma BoldWhole(x: string)
    requires PlainBoldContent(x)
    ensures RenderText("**" + x + "**") == "<strong>" + x + "</strong>"
  {
    var s := "**" + x + "**";
    assert s[0..|x| + 4] == s;
    BoldSpanAt(s, 0, x);
    assert BoldPieces(s, |s|) == [];
    EmitCons(Span(x), [], "<strong>", "</strong>");
    var b := "<strong>" + x + "</strong>";
    assert BoldPass(s) == b;
    ItalicPassStarFree(b);
  }

  /** `**x**y*z*` becomes `<strong>x</strong>y<em>z</em>` when `y` holds no `*`. */
  lemma BoldThenItalicText(x: string, y: string, z: string)
    requires PlainBoldContent(x) && '*' !in y && PlainItalicContent(z)
    ensures RenderText("**" + x + "**" + y + "*" + z + "*")
         == "<strong>" + x + "</strong>" + y + "<em>" + z + "</em>"
  {
    var t := y + "*" + z + "*";
    assert NoDoubleStar(t) by {
      forall k | 0 <= k < |t| - 1 ensures !(t[k] == '*' && t[k + 1] == '*') {
        if k < |y| { assert t[k] == y[k]; }
        else if k == |y| { assert t[k + 1] == z[0]; }
        else { assert t[k] == z[k - |y| - 1]; }
      }
    }
    var pre := "<strong>" + x + "</strong>" + y;
    assert '*' !in pre;
    calc {
      RenderText("**" + x + "**" + y + "*" + z + "*");
      { assert ("**" + x + "**") + (y + "*" + z + "*") == "**" + x + "**" + y + "*" + z + "*"; }
      ItalicPass(BoldPass("**" + x + "**" + t));
      { assert "" + "**" + x + "**" + t == "**" + x + "**" + t; }
      ItalicPass(BoldPass("" + "**" + x + "**" + t));
      { BoldAround("", x, t); assert "" + "<strong>" + x + "</strong>" + t == "<strong>" + x + "</strong>" + t; }
      ItalicPass("<strong>" + x + "</strong>" + t);
      { assert ("<strong>" + x + "</strong>") + (y + "*" + z + "*") == "<strong>" + x + "</strong>" + y + "*" + z + "*"; }
      ItalicPass(pre + "*" + z + "*");
      { LiteralThenItalic(pre, z); }
      pre + "<em>" + z + "</em>";
    }
  }

  /** No two `*` stand side by side. */
  predicate NoDoubleStar(t: string) {
    forall k :: 0 <= k < |t| - 1 ==> !(t[k] == '*' && t[k + 1] == '*')
  }

  /** A prefix without `**` that does not end in `*` is copied by the bold pass. */
  lemma BoldCopiesPrefix(s: string, u: string)
    requires |u| <= |s| && s[..|u|] == u
    requires NoDoubleStar(u) && (u == [] || u[|u| - 1] != '*')
    requires |u| < |s| ==> s[|u|] == '*'
    ensures Emit(BoldPieces(s, 0), "<strong>", "</strong>")
         == u + Emit(BoldPieces(s, |u|), "<strong>", "</strong>")
  {
    forall k | 0 <= k < |u| ensures !DoubleStarAt(s, k) {
      assert s[k] == u[k];
      if k + 1 < |u| { assert s[k + 1] == u[k + 1]; }
    }
    BoldCopies(s, 0, |u|);
    assert s[0..|u|] == u;
  }

  /** A suffix without `**` is copied by the bold pass. */
  lemma BoldCopiesSuffix(s: string, m: nat, t: string)
    requires m <= |s| && s[m..] == t && NoDoubleStar(t)
    ensures Emit(BoldPieces(s, m), "<strong>", "</strong>") == t
  {
    forall k | m <= k < |s| ensures !DoubleStarAt(s, k) {
      if k + 1 < |s| {
        assert s[k] == s[m..][k - m] && s[k + 1] == s[m..][k + 1 - m];
      }
    }
    BoldCopies(s, m, |s|);
    assert BoldPieces(s, |s|) == [];
    assert s[m..|s|] == s[m..];
  }

  /** The bold pass turns one `**x**` into `<strong>x</strong>` and copies the text around it,
      when that text holds no other `**`. */
  lemma BoldAround(u: string, x: string, t: string)
    requires PlainBoldContent(x)
    requires NoDoubleStar(u) && (u == [] || u[|u| - 1] != '*') && NoDoubleStar(t)
    ensures BoldPass(u + "**" + x + "**" + t) == u + "<strong>" + x + "</strong>" + t
  {
    var w := "**" + x + "**";
    assert u + ("**" + x + "**") + t == u + "**" + x + "**" + t;
    BoldAroundIn(u + w + t, u, x, t);
  }

  lemma BoldAroundIn(s: string, u: string, x: string, t: string)
    requires PlainBoldContent(x)
    requires NoDoubleStar(u) && (u == [] || u[|u| - 1] != '*') && NoDoubleStar(t)
    requires s == u + ("**" + x + "**") + t
    ensures BoldPass(s) == u + "<strong>" + x + "</strong>" + t
  {
    var w := "**" + x + "**";
    assert |w| == |x| + 4;
    var m := |u| + |x| + 4;
    assert s[..|u|] == u && s[|u|..|u| + |w|] == w && s[|u| + |w|..] == t;
    assert s[|u|] == w[0];
    BoldAroundParts(s, u, x, t, m);
    assert u + ("<strong>" + x + "</strong>" + t) == u + "<strong>" + x + "</strong>" + t;
  }

  lemma BoldAroundParts(s: string, u: string, x: string, t: string, m: nat)
    requires PlainBoldContent(x)
    requires NoDoubleStar(u) && (u == [] || u[|u| - 1] != '*') && NoDoubleStar(t)
    requires m == |u| + |x| + 4 && m <= |s|
    requires s[..|u|] == u && s[|u|..m] == "**" + x + "**" && s[m..] == t
    ensures BoldPass(s) == u + ("<strong>" + x + "</strong>" + t)
  {
    assert s[|u|] == s[|u|..m][0];
    BoldCopiesPrefix(s, u);
    BoldSpanThenRest(s, |u|, x, t);
  }

  /** A `**x**` at `i` followed by a rest `t` without `**` comes out as `<strong>x</strong>t`. */
  lemma BoldSpanThenRest(s: string, i: nat, x: string, t: string)
    requires PlainBoldContent(x) && NoDoubleStar(t)
    requires i + |x| + 4 <= |s| && s[i..i + |x| + 4] == "**" + x + "**" && s[i + |x| + 4..] == t
    ensures Emit(BoldPieces(s, i), "<strong>", "</strong>") == "<strong>" + x + "</strong>" + t
  {
    BoldMiddle(s, i, x);
    BoldCopiesSuffix(s, i + |x| + 4, t);
  }

  /** The bold pass renders a `**x**` at position `i` as `<strong>x</strong>` and goes on after it. */
  lemma BoldMiddle(s: string, i: nat, x: string)
    requires PlainBoldContent(x)
    requires i + |x| + 4 <= |s| && s[i..i + |x| + 4] == "**" + x + "**"
    ensures Emit(BoldPieces(s, i), "<strong>", "</strong>")
         == "<strong>" + x + "</strong>" + Emit(BoldPieces(s, i + |x| + 4), "<strong>", "</strong>")
  {
    BoldSpanAt(s, i, x);
    EmitCons(Span(x), BoldPieces(s, i + |x| + 4), "<strong>", "</strong>");
  }

  /** The italic pass copies a star-free prefix and turns a final `*z*` into `<em>z</em>`. */
  lemma LiteralThenItalic(pre: string, z: string)
    requires '*' !in pre && PlainItalicContent(z)
    ensures ItalicPass(pre + "*" + z + "*") == pre + "<em>" + z + "</em>"
  {
    var w := "*" + z + "*";
    assert (pre + w)[..|pre|] == pre && (pre + w)[|pre|..] == w;
    assert pre + w == pre + "*" + z + "*";
    ItalicEndParts(pre + "*" + z + "*", pre, z);
  }

  /** The italic pass over a string made of a star-free `pre` and a final `*z*`. */
  lemma ItalicEndParts(s: string, pre: string, z: string)
    requires '*' !in pre && PlainItalicContent(z)
    requires |s| == |pre| + |z| + 2 && s[..|pre|] == pre && s[|pre|..] == "*" + z + "*"
    ensures ItalicPass(s) == pre + ("<em>" + z + "</em>")
  {
    assert s[0..|pre|] == pre;
    ItalicCopiesStarFree(s, 0, |pre|);
    assert s[|pre|..|pre| + |z| + 2] == "*" + z + "*";
    ItalicSpanAt(s, |pre|, z);
    assert ItalicPieces(s, |s|) == [];
    EmitCons(Span(z), [], "<em>", "</em>");
  }

  // The example lemmas in this module take their string as a parameter pinned by `requires`
  // rather than as a literal, so that the verifier does not unfold every definition on it.
  /** A bold span followed by literal text and an italic span. */
  lemma BoldThenItalic(s: string)
    requires s == "**x**y*z*"
    ensures RenderText(s) == "<strong>x</strong>y<em>z</em>"
  {
    assert s == "**" + "x" + "**" + "y" + "*" + "z" + "*" by {}
    assert "<strong>" + "x" + "</strong>" + "y" + "<em>" + "z" + "</em>" == "<strong>x</strong>y<em>z</em>" by {}
    BoldThenItalicText("x", "y", "z");
  }

  /** `*a **x** c*` becomes `<em>a <strong>x</strong> c</em>`: the italic pass runs over the
      bold pass's output, so an italic span can enclose a `<strong>` element. */
  lemma ItalicAroundBoldText(a: string, x: string, c: string)
    requires PlainItalicContent(a) && PlainBoldContent(x) && '*' !in c && '\n' !in c
    ensures RenderText("*" + a + "**" + x + "**" + c + "*")
         == "<em>" + a + "<strong>" + x + "</strong>" + c + "</em>"
  {
    var u := "*" + a;
    var t := c + "*";
    assert NoDoubleStar(u) by {
      forall k | 1 <= k < |u| ensures u[k] != '*' { assert u[k] == a[k - 1]; }
    }
    assert NoDoubleStar(t) by {
      forall k | 0 <= k < |t| - 1 ensures t[k] != '*' { assert t[k] == c[k]; }
    }
    assert u[|u| - 1] == a[|a| - 1];
    var inner := a + "<strong>" + x + "</strong>" + c;
    calc {
      RenderText("*" + a + "**" + x + "**" + c + "*");
      { assert ("*" + a + "**" + x + "**") + (c + "*") == "*" + a + "**" + x + "**" + c + "*"; }
      ItalicPass(BoldPass(u + "**" + x + "**" + t));
      { BoldAround(u, x, t); }
      ItalicPass(u + "<strong>" + x + "</strong>" + t);
      { assert (u + "<strong>" + x + "</strong>" + t) == "*" + (a + "<strong>" + x + "</strong>" + c) + "*"; }
      ItalicPass("*" + inner + "*");
      { ItalicWhole(inner); }
      "<em>" + inner + "</em>";
      { assert "<em>" + (a + "<strong>" + x + "</strong>" + c) + "</em>" == "<em>" + a + "<strong>" + x + "</strong>" + c + "</em>"; }
      "<em>" + a + "<strong>" + x + "</strong>" + c + "</em>";
    }
  }

  /** The italic pass turns `*z*` into `<em>z</em>`. */
  lemma ItalicWhole(z: string)
    requires PlainItalicContent(z)
    ensures ItalicPass("*" + z + "*") == "<em>" + z + "</em>"
  {
    var b := "*" + z + "*";
    assert b[..0] == "" && b[0..] == b;
    ItalicEndParts(b, "", z);
    assert "" + ("<em>" + z + "</em>") == "<em>" + z + "</em>";
  }

  /** The italic pass can wrap an element the bold pass produced. */
  lemma ItalicAroundBold(s: string)
    requires s == "*a **b** c*"
    ensures RenderText(s) == "<em>a <strong>b</strong> c</em>"
  {
    assert s == "*" + "a " + "**" + "b" + "**" + " c" + "*" by {}
    assert "<em>" + "a " + "<strong>" + "b" + "</strong>" + " c" + "</em>" == "<em>a <strong>b</strong> c</em>" by {}
    ItalicAroundBoldText("a ", "b", " c");
  }

  /** Four stars in a row: bold needs a content character and italic cannot start with `*`. */
  lemma FourStarsUnchanged()
    ensures RenderText("****") == "****"
  {
  }

  /** A lone `*` stays literal. */
  lemma SpacedStarUnchanged()
    ensures RenderText("a * b") == "a * b"
  {
    LoneStarUnchanged("a * b");
  }

  /** A bold span does not cross a line terminator. */
  lemma BoldStopsAtNewline(s: string)
    requires s == "**a\nb**"
    ensures RenderText(s) == s
  {
    assert |s| == 7 && s[3] == '\n';
    assert BoldMatchAt(s, 0).None? by { assert BoldCloseFrom(s, 3).None?; }
    assert forall k :: 1 <= k < 7 ==> BoldMatchAt(s, k).None?;
    BoldCopies(s, 0, 7);
    assert BoldPieces(s, 7) == [] && s[0..7] == s;
    assert ItalicMatchAt(s, 1).None? by { assert ItalicCloseFrom(s, 3).None?; }
    assert forall k :: 0 <= k < 7 ==> ItalicMatchAt(s, k).None?;
    ItalicCopies(s, 0, 7);
    assert ItalicPieces(s, 7) == [];
    assert BoldPass(s) == s;
    assert ItalicPass(s) == s;
  }
}
