/**
 * The itinerary view: the itinerary text is split into lines, runs of empty
 * lines are collapsed, and every line is classified by an ordered cascade of
 * pattern tests into one of seven kinds of block. Bullet, numbered and plain
 * blocks show their text through `renderText`; headings and time labels show
 * theirs as literal text.
 */
module ItineraryDisplay {
  import opened JsString
  import opened Emphasis

  /** The seven outcomes of the classification cascade, each carrying its text with the marker stripped. */
  datatype Block =
    | SectionHeading(text: string)
    | SubHeading(text: string)
    | Bullet(content: string)
    | Numbered(ordinal: string, content: string)
    | TimeLabel(text: string)
    | Plain(content: string)
    | Spacer

  // ------------------------------------------------------------ patterns

  /** Number of `#` characters at the start of `s`. */
  function HashRun(s: string): (n: nat)
    ensures n <= |s|
    ensures forall k :: 0 <= k < n ==> s[k] == '#'
    ensures n < |s| ==> s[n] != '#'
  {
    if s == [] || s[0] != '#' then 0 else 1 + HashRun(s[1..])
  }

  /** Number of ASCII digits at the start of `s`. */
  function DigitRun(s: string): (n: nat)
    ensures n <= |s|
    ensures forall k :: 0 <= k < n ==> IsDigit(s[k])
    ensures n < |s| ==> !IsDigit(s[n])
  {
    if s == [] || !IsDigit(s[0]) then 0 else 1 + DigitRun(s[1..])
  }

  // /^#{1,2}\s/
  predicate IsSectionHeadingLine(line: string) {
    (2 <= |line| && line[0] == '#' && IsSpace(line[1]))
    || (3 <= |line| && line[0] == '#' && line[1] == '#' && IsSpace(line[2]))
  }

  // line.replace(/^#+\s/, ''): the greedy `#+` backs off only onto `#`, which is not
  // whitespace, so the pattern matches exactly when the full run is followed by whitespace.
  function StripHashes(line: string): string {
    var n := HashRun(line);
    if 1 <= n < |line| && IsSpace(line[n]) then line[n + 1..] else line
  }

  // /^###\s/
  predicate IsSubHeadingLine(line: string) {
    4 <= |line| && line[..3] == "###" && IsSpace(line[3])
  }

  predicate IsBulletMarker(c: char) {
    c == '-' || c == '*' || c == '•'
  }

  // /^[-*•]\s/
  predicate IsBulletLine(line: string) {
    2 <= |line| && IsBulletMarker(line[0]) && IsSpace(line[1])
  }

  // /^\d+[.)]\s/: the greedy `\d+` cannot back off, since a shorter run is followed by a digit.
  predicate IsNumberedLine(line: string) {
    var d := DigitRun(line);
    1 <= d && d + 2 <= |line| && (line[d] == '.' || line[d] == ')') && IsSpace(line[d + 1])
  }

  // /^\*\*[^*]+\*\*$/ on the trimmed line.
  predicate IsBoldOnly(t: string) {
    5 <= |t| && t[..2] == "**" && t[|t| - 2..] == "**" && '*' !in t[2..|t| - 2]
  }

  // s.replace(/\*\*/g, ''): every `**`, found left to right, is removed.
  function RemoveDoubleStars(s: string): (r: string)
    ensures |r| <= |s|
  {
    if |s| < 2 then s
    else if s[0] == '*' && s[1] == '*' then RemoveDoubleStars(s[2..])
    else [s[0]] + RemoveDoubleStars(s[1..])
  }

  // ------------------------------------------------------------ cascade

  /** `ItineraryLine`: the first rule that matches decides the block. */
  function Classify(line: string): Block {
    if IsSectionHeadingLine(line) then SectionHeading(StripHashes(line))
    else if IsSubHeadingLine(line) then SubHeading(line[4..])
    else if IsBulletLine(line) then Bullet(line[2..])
    else if IsNumberedLine(line) then
      var d := DigitRun(line);
      Numbered(line[..d], line[d + 2..])
    else if IsBoldOnly(Trim(line)) then TimeLabel(RemoveDoubleStars(line))
    else if Trim(line) != [] then Plain(line)
    else Spacer
  }

  /** What the block shows: bullet, numbered and plain text go through `renderText`
      (and are inserted as HTML); every other block shows its text literally. */
  function Markup(b: Block): Block {
    match b
    case Bullet(c) => Bullet(RenderText(c))
    case Numbered(n, c) => Numbered(n, RenderText(c))
    case Plain(c) => Plain(RenderText(c))
    case _ => b
  }

  // ------------------------------------------------------------ collapsing

  /** Index `i` of the split lines survives the filter: it is dropped only when it
      is empty and the line before it is empty too (index 0 has no line before it). */
  predicate Kept(a: seq<string>, i: int)
    requires 0 <= i < |a|
  {
    !(a[i] == "" && 0 < i && a[i - 1] == "")
  }

  /** The `lines` filter: drop every empty line whose predecessor in the input is empty. */
  function Collapse(a: seq<string>): (r: seq<string>)
    ensures |r| <= |a|
    ensures a != [] ==> r != [] && r[|r| - 1] == a[|a| - 1]
  {
    if a == [] then []
    else if Kept(a, |a| - 1) then Collapse(a[..|a| - 1]) + [a[|a| - 1]]
    else Collapse(a[..|a| - 1])
  }

  /** `itinerary.split('\n')` followed by the filter. */
  function Lines(itinerary: string): seq<string> {
    Collapse(Split(itinerary, '\n'))
  }

  /** The classified blocks of an itinerary, one per surviving line, in order. */
  function Document(itinerary: string): (d: seq<Block>)
    ensures |d| == |Lines(itinerary)|
    ensures forall i :: 0 <= i < |d| ==> d[i] == Classify(Lines(itinerary)[i])
  {
    var ls := Lines(itinerary);
    seq(|ls|, i requires 0 <= i < |ls| => Classify(ls[i]))
  }

  /** The displayed itinerary: every block of the document with its markup applied. */
  function Rendered(itinerary: string): (r: seq<Block>)
    ensures |r| == |Document(itinerary)|
    ensures forall i :: 0 <= i < |r| ==> r[i] == Markup(Classify(Lines(itinerary)[i]))
  {
    var d := Document(itinerary);
    seq(|d|, i requires 0 <= i < |d| => Markup(d[i]))
  }

  // ================================================================ lemmas
  // ----------------------------------------------------- collapsing

  predicate NoAdjacentBlanks(r: seq<string>) {
    forall i :: 0 < i < |r| ==> !(r[i] == "" && r[i - 1] == "")
  }

  predicate HasAdjacentBlanks(a: seq<string>) {
    exists i :: 0 < i < |a| && a[i] == "" && a[i - 1] == ""
  }

  /** The non-empty lines of a list, in order. */
  function NonEmpty(a: seq<string>): seq<string> {
    if a == [] then []
    else NonEmpty(a[..|a| - 1]) + (if a[|a| - 1] == "" then [] else [a[|a| - 1]])
  }

  /** After collapsing, no two neighbouring lines are both empty. */
  lemma {:induction false} CollapseNoAdjacentBlanks(a: seq<string>)
    ensures NoAdjacentBlanks(Collapse(a))
  {
    if a != [] {
      var p := a[..|a| - 1];
      CollapseNoAdjacentBlanks(p);
      if Kept(a, |a| - 1) && p != [] {
        assert Collapse(p)[|Collapse(p)| - 1] == p[|p| - 1];
      }
    }
  }

  /** Collapsing keeps every non-empty line (whitespace-only lines included), in order. */
  lemma {:induction false} CollapseKeepsNonEmpty(a: seq<string>)
    ensures NonEmpty(Collapse(a)) == NonEmpty(a)
  {
    if a != [] {
      var p := a[..|a| - 1];
      CollapseKeepsNonEmpty(p);
      var r := Collapse(a);
      if Kept(a, |a| - 1) {
        assert r[..|r| - 1] == Collapse(p);
      }
    }
  }

  /** Nothing is dropped exactly when the input has no two neighbouring empty lines. */
  lemma {:induction false} CollapseLengthIff(a: seq<string>)
    ensures |Collapse(a)| == |a| <==> !HasAdjacentBlanks(a)
  {
    if a != [] {
      var p := a[..|a| - 1];
      CollapseLengthIff(p);
      if HasAdjacentBlanks(p) {
        var i :| 0 < i < |p| && p[i] == "" && p[i - 1] == "";
        assert a[i] == "" && a[i - 1] == "";
      }
      if HasAdjacentBlanks(a) {
        var i :| 0 < i < |a| && a[i] == "" && a[i - 1] == "";
        if i < |a| - 1 {
          assert p[i] == "" && p[i - 1] == "";
          assert HasAdjacentBlanks(p);
        } else {
          assert !Kept(a, |a| - 1);
        }
      }
    }
  }

  /** An input without neighbouring empty lines passes through unchanged. */
  lemma {:induction false} CollapseNoOp(a: seq<string>)
    requires NoAdjacentBlanks(a)
    ensures Collapse(a) == a
  {
    if a != [] {
      var p := a[..|a| - 1];
      assert NoAdjacentBlanks(p) by {
        forall i | 0 < i < |p| ensures !(p[i] == "" && p[i - 1] == "") {
          assert p[i] == a[i] && p[i - 1] == a[i - 1];
        }
      }
      CollapseNoOp(p);
      assert p + [a[|a| - 1]] == a;
    }
  }

  /** Collapsing twice is collapsing once. */
  lemma CollapseIdempotent(a: seq<string>)
    ensures Collapse(Collapse(a)) == Collapse(a)
  {
    CollapseNoAdjacentBlanks(a);
    CollapseNoOp(Collapse(a));
  }

  /** The first line always survives. */
  lemma {:induction false} CollapseKeepsFirst(a: seq<string>)
    requires a != []
    ensures Collapse(a) != [] && Collapse(a)[0] == a[0]
  {
    if |a| > 1 {
      var p := a[..|a| - 1];
      CollapseKeepsFirst(p);
      assert p[0] == a[0];
    }
  }

  /** A non-empty line shields what follows it: the lines after it are filtered as if
      they started the input, so the filter works segment by segment. */
  lemma {:induction false} CollapseAfterText(a: seq<string>, x: string, b: seq<string>)
    requires x != ""
    ensures Collapse(a + [x] + b) == Collapse(a + [x]) + Collapse(b)
    decreases |b|
  {
    if b == [] {
      assert a + [x] + b == a + [x];
    } else {
      var c := a + [x] + b;
      var p := b[..|b| - 1];
      assert c[..|c| - 1] == a + [x] + p;
      assert c[|c| - 1] == b[|b| - 1];
      if |b| == 1 {
        assert c[|c| - 2] == x;
      } else {
        assert c[|c| - 2] == b[|b| - 2];
      }
      CollapseAfterText(a, x, p);
    }
  }

  /** A run of one or more empty lines keeps exactly its first line. */
  lemma {:induction false} CollapseBlanks(n: nat)
    ensures Collapse(seq(n + 1, _ => "")) == [""]
  {
    if n > 0 {
      var a: seq<string> := seq(n + 1, _ => "");
      assert a[..n] == seq(n, _ => "");
      assert !Kept(a, n);
      CollapseBlanks(n - 1);
    } else {
      var a: seq<string> := seq(1, _ => "");
      assert a[..0] == [];
    }
  }

  /** Between two text lines, a run of `n + 1` empty lines becomes a single empty line;
      in particular a lone empty line survives. */
  lemma CollapseBlankRunAt(a: seq<string>, x: string, n: nat, y: string, b: seq<string>)
    requires x != "" && y != ""
    ensures Collapse(a + [x] + seq(n + 1, _ => "") + [y] + b)
         == Collapse(a + [x]) + [""] + Collapse([y] + b)
  {
    var e: seq<string> := seq(n + 1, _ => "");
    var ax := a + [x];
    var c := ax + e + [y] + b;
    assert c == a + [x] + (e + [y] + b);
    CollapseAfterText(a, x, e + [y] + b);
    CollapseAfterText(e, y, b);
    CollapseBlanks(n);
    assert Collapse(e + [y]) == [""] + [y] by {
      assert (e + [y])[..|e|] == e;
    }
    CollapseAfterText([], y, b);
    assert [] + [y] + b == [y] + b;
    assert Collapse([y]) == [y] by { assert [y][..0] == []; }
  }

  // The example lemmas in this module take their string as a parameter pinned by `requires`
  // rather than as a literal, so that the verifier does not unfold every definition on it.
  /** `A\n\n\n\nB` splits into `A`, three empty lines and `B`. */
  lemma SplitExample(s: string)
    requires s == "A\n\n\n\nB"
    ensures Split(s, '\n') == ["A", "", "", "", "B"]
  {
    var a: seq<string> := ["A", "", "", "", "B"];
    assert forall i :: 0 <= i < |a| ==> '\n' !in a[i];
    SplitJoin(a, '\n');
    assert a[1..] == ["", "", "", "B"] && a[1..][1..] == ["", "", "B"];
    assert a[1..][1..][1..] == ["", "B"] && a[1..][1..][1..][1..] == ["B"];
    assert Join(a, '\n') == s;
  }

  /** Three blank lines between two paragraphs become one. */
  lemma CollapseExample(s: string)
    requires s == "A\n\n\n\nB"
    ensures Lines(s) == ["A", "", "B"]
  {
    SplitExample(s);
    CollapseBlankRun("A", "", "B");
  }

  lemma CollapseBlankRun(x: string, e: string, y: string)
    requires x != "" && e == "" && y != ""
    ensures Collapse([x, e, e, e, y]) == [x, e, y]
  {
    var a := [x, e, e, e, y];
    assert Collapse([x]) == [x] by { assert [x][..0] == []; }
    assert Collapse([x, e]) == [x, e] by { assert [x, e][..1] == [x]; }
    assert Collapse([x, e, e]) == [x, e] by { assert [x, e, e][..2] == [x, e]; }
    assert Collapse([x, e, e, e]) == [x, e] by { assert [x, e, e, e][..3] == [x, e, e]; }
    assert a[..4] == [x, e, e, e];
  }

  /** The same itinerary shows two plain lines around one spacer. */
  lemma DocumentExample(s: string)
    requires s == "A\n\n\n\nB"
    ensures Document(s) == [Plain("A"), Spacer, Plain("B")]
  {
    CollapseExample(s);
    DocumentOfLines(s, "A", "", "B");
  }

  lemma DocumentOfLines(s: string, x: string, e: string, y: string)
    requires Lines(s) == [x, e, y]
    requires OneCapital(x) && e == "" && OneCapital(y)
    ensures Document(s) == [Plain(x), Spacer, Plain(y)]
  {
    var d := Document(s);
    assert d[0] == Plain(x) by { OneCapitalPlain(x); }
    assert d[1] == Spacer by { SpacerIff(e); }
    assert d[2] == Plain(y) by { OneCapitalPlain(y); }
  }

  predicate OneCapital(line: string) {
    |line| == 1 && 'A' <= line[0] <= 'Z'
  }

  lemma OneCapitalPlain(line: string)
    requires OneCapital(line)
    ensures Classify(line) == Plain(line)
  {
    assert DigitRun(line) == 0;
    TrimFramed("", line, "");
    assert "" + line + "" == line;
  }

  // ----------------------------------------------------- classification

  /** `#` or `##` and one whitespace character make a section heading whose text is the rest. */
  lemma SectionHeadingShape(hashes: string, c: char, rest: string)
    requires hashes == "#" || hashes == "##"
    requires IsSpace(c)
    ensures Classify(hashes + [c] + rest) == SectionHeading(rest)
  {
    var line := hashes + [c] + rest;
    assert line[|hashes|] == c;
    HashRunPrefix(hashes, [c] + rest);
    assert line == hashes + ([c] + rest);
    assert line[|hashes| + 1..] == rest;
  }

  lemma HashRunPrefix(hashes: string, t: string)
    requires forall k :: 0 <= k < |hashes| ==> hashes[k] == '#'
    requires t != [] && t[0] != '#'
    ensures HashRun(hashes + t) == |hashes|
    decreases |hashes|
  {
    if hashes != [] {
      assert (hashes + t)[1..] == hashes[1..] + t;
      HashRunPrefix(hashes[1..], t);
    }
  }

  /** A section heading comes only from a line opening with `#` or `##` and one whitespace
      character, and its text is everything after that whitespace character. */
  lemma SectionHeadingOnly(line: string, text: string)
    requires Classify(line) == SectionHeading(text)
    ensures exists n :: 1 <= n <= 2 && n < |line| && line[..n] == seq(n, _ => '#') && IsSpace(line[n])
                        && line[n + 1..] == text
  {
    var n := HashRun(line);
    assert line[..n] == seq(n, _ => '#');
  }

  /** `### X` is not a section heading: it is a sub-heading with text `X`. */
  lemma ThreeHashesSubHeading(c: char, rest: string)
    requires IsSpace(c)
    ensures Classify("###" + [c] + rest) == SubHeading(rest)
  {
    var line := "###" + [c] + rest;
    assert line[..3] == "###" && line[3] == c;
    assert line[4..] == rest;
  }

  /** Four or more `#` fall through every rule to a plain line. */
  lemma FourHashesPlain(rest: string)
    ensures Classify("####" + rest) == Plain("####" + rest)
  {
    var line := "####" + rest;
    assert line[0] == '#' && line[1] == '#' && line[2] == '#' && line[3] == '#';
    assert line[..3] == "###";
    assert DigitRun(line) == 0;
    var t := Trim(line);
    assert t != [] && t[0] == '#' by {
      assert !AllSpace(line) by { assert !IsSpace(line[0]); }
      assert LeadingSpaces(line) == 0;
    }
  }

  /** A line opening with whitespace is never a heading, bullet or numbered item. */
  lemma LeadingSpaceLine(line: string)
    requires line != [] && IsSpace(line[0])
    ensures Classify(line).TimeLabel? || Classify(line).Plain? || Classify(line).Spacer?
  {
    assert DigitRun(line) == 0;
  }

  /** A marker `-`, `*` or `•` and one whitespace character make a bullet whose content is the rest. */
  lemma BulletShape(m: char, c: char, rest: string)
    requires IsBulletMarker(m) && IsSpace(c)
    ensures Classify([m, c] + rest) == Bullet(rest)
  {
    var line := [m, c] + rest;
    assert line[0] == m && line[1] == c;
    assert DigitRun(line) == 0;
    assert line[2..] == rest;
  }

  /** A digit run, `.` or `)`, and one whitespace character make a numbered item that keeps
      the digits as written and shows the rest. */
  lemma NumberedShape(digits: string, delim: char, c: char, rest: string)
    requires digits != [] && forall k :: 0 <= k < |digits| ==> IsDigit(digits[k])
    requires delim == '.' || delim == ')'
    requires IsSpace(c)
    ensures Classify(digits + [delim, c] + rest) == Numbered(digits, rest)
  {
    var line := digits + [delim, c] + rest;
    assert line == digits + ([delim, c] + rest);
    DigitRunPrefix(digits, [delim, c] + rest);
    var d := |digits|;
    assert line[d] == delim && line[d + 1] == c;
    assert line[..d] == digits && line[d + 2..] == rest;
    assert !IsSectionHeadingLine(line) && !IsSubHeadingLine(line) && !IsBulletLine(line) by {
      assert IsDigit(line[0]);
    }
  }

  lemma DigitRunPrefix(digits: string, t: string)
    requires forall k :: 0 <= k < |digits| ==> IsDigit(digits[k])
    requires t != [] && !IsDigit(t[0])
    ensures DigitRun(digits + t) == |digits|
    decreases |digits|
  {
    if digits != [] {
      assert (digits + t)[1..] == digits[1..] + t;
      DigitRunPrefix(digits[1..], t);
    }
  }

  /** `12) Visit the tower` is item `12` showing `Visit the tower`. */
  lemma NumberedExample(line: string)
    requires line == "12) Visit the tower"
    ensures Classify(line) == Numbered("12", "Visit the tower")
  {
    assert line == "12" + [')', ' '] + "Visit the tower";
    NumberedShape("12", ')', ' ', "Visit the tower");
  }

  /** A numbered item comes only from a line opening with its digits, `.` or `)`, and one
      whitespace character. */
  lemma NumberedOnly(line: string, n: string, content: string)
    requires Classify(line) == Numbered(n, content)
    ensures n != [] && forall k :: 0 <= k < |n| ==> IsDigit(n[k])
    ensures |n| + 2 <= |line| && line[..|n|] == n && (line[|n|] == '.' || line[|n|] == ')')
    ensures IsSpace(line[|n| + 1]) && line[|n| + 2..] == content
  {
  }

  /** Removing `**` from text without `*` changes nothing. */
  lemma {:induction false} RemoveDoubleStarsStarFree(s: string)
    requires '*' !in s
    ensures RemoveDoubleStars(s) == s
  {
    if |s| >= 2 {
      RemoveDoubleStarsStarFree(s[1..]);
      assert s == [s[0]] + s[1..];
    }
  }

  /** A star-free prefix is kept as it is. */
  lemma {:induction false} RemoveDoubleStarsAfter(a: string, t: string)
    requires '*' !in a
    ensures RemoveDoubleStars(a + t) == a + RemoveDoubleStars(t)
  {
    if a != [] {
      var s := a + t;
      assert s[1..] == a[1..] + t;
      assert '*' !in a[1..];
      RemoveDoubleStarsAfter(a[1..], t);
      assert s[0] == a[0] && a[0] != '*';
      if |s| >= 2 {
        assert RemoveDoubleStars(s) == [s[0]] + RemoveDoubleStars(s[1..]);
      } else {
        assert t == [] && s == a;
        assert RemoveDoubleStars(s) == s;
      }
      assert a == [a[0]] + a[1..];
    } else {
      assert a + t == t;
    }
  }

  lemma RemoveOneDoubleStar(t: string)
    ensures RemoveDoubleStars("**" + t) == RemoveDoubleStars(t)
  {
    assert ("**" + t)[2..] == t;
  }

  /** Whitespace, `**`, star-free text, `**`, whitespace: a time label showing the line without its `**`. */
  lemma TimeLabelShape(pre: string, x: string, post: string)
    requires AllSpace(pre) && AllSpace(post)
    requires x != [] && '*' !in x
    ensures Classify(pre + "**" + x + "**" + post) == TimeLabel(pre + x + post)
  {
    var line := pre + "**" + x + "**" + post;
    TimeLabelTrimmed(line, pre, x, post);
    TimeLabelNoMarker(line, pre, x, post);
    TimeLabelText(pre, x, post);
  }

  lemma TimeLabelTrimmed(line: string, pre: string, x: string, post: string)
    requires AllSpace(pre) && AllSpace(post)
    requires x != [] && '*' !in x
    requires line == pre + "**" + x + "**" + post
    ensures IsBoldOnly(Trim(line))
  {
    var mid := "**" + x + "**";
    assert line == pre + mid + post;
    TrimFramed(pre, mid, post);
    assert mid[..2] == "**" && mid[|mid| - 2..] == "**";
    assert mid[2..|mid| - 2] == x;
  }

  lemma TimeLabelNoMarker(line: string, pre: string, x: string, post: string)
    requires AllSpace(pre)
    requires line == pre + "**" + x + "**" + post
    ensures !IsSectionHeadingLine(line) && !IsSubHeadingLine(line) && !IsBulletLine(line) && !IsNumberedLine(line)
  {
    if pre != [] {
      assert line[0] == pre[0] && IsSpace(line[0]);
    } else {
      assert line[0] == '*' && line[1] == '*';
    }
    assert DigitRun(line) == 0;
  }

  lemma TimeLabelText(pre: string, x: string, post: string)
    requires AllSpace(pre) && AllSpace(post)
    requires '*' !in x
    ensures RemoveDoubleStars(pre + "**" + x + "**" + post) == pre + x + post
  {
    SpaceStarFree(pre);
    SpaceStarFree(post);
    calc {
      RemoveDoubleStars(pre + "**" + x + "**" + post);
      { assert pre + "**" + x + "**" + post == pre + ("**" + (x + ("**" + post))); }
      RemoveDoubleStars(pre + ("**" + (x + ("**" + post))));
      { RemoveDoubleStarsAfter(pre, "**" + (x + ("**" + post))); }
      pre + RemoveDoubleStars("**" + (x + ("**" + post)));
      { RemoveOneDoubleStar(x + ("**" + post)); RemoveDoubleStarsAfter(x, "**" + post); }
      pre + (x + RemoveDoubleStars("**" + post));
      { RemoveOneDoubleStar(post); RemoveDoubleStarsStarFree(post); }
      pre + (x + post);
    }
  }

  lemma SpaceStarFree(s: string)
    requires AllSpace(s)
    ensures '*' !in s
  {
    forall k | 0 <= k < |s| ensures s[k] != '*' {
      assert IsSpace(s[k]);
    }
  }

  /** A time label comes only from a line whose trimmed form is `**`, star-free text, `**`,
      and which opens with neither a heading, bullet nor numbered marker. */
  lemma TimeLabelOnly(line: string, text: string)
    requires Classify(line) == TimeLabel(text)
    ensures IsBoldOnly(Trim(line)) && text == RemoveDoubleStars(line)
    ensures !IsSectionHeadingLine(line) && !IsSubHeadingLine(line) && !IsBulletLine(line) && !IsNumberedLine(line)
  {
  }

  /** A line is a spacer exactly when it is empty or all whitespace. */
  lemma SpacerIff(line: string)
    ensures Classify(line) == Spacer <==> AllSpace(line)
  {
    if AllSpace(line) {
      if line != [] {
        assert IsSpace(line[0]);
        assert DigitRun(line) == 0;
      }
      assert Trim(line) == [];
    }
  }

  // ----------------------------------------------------- markup

  /** Headings, sub-headings, time labels and spacers are shown literally, never through `renderText`. */
  lemma MarkupKeepsLiteralBlocks(b: Block)
    requires b.SectionHeading? || b.SubHeading? || b.TimeLabel? || b.Spacer?
    ensures Markup(b) == b
  {
  }

  /** On text without `*`, rendering changes no block. */
  lemma MarkupStarFree(b: Block)
    requires b.Bullet? || b.Numbered? || b.Plain? ==> '*' !in b.content
    ensures Markup(b) == b
  {
    if b.Bullet? || b.Numbered? || b.Plain? {
      NoStarUnchanged(b.content);
    }
  }

  /** A heading keeps its `**` as literal characters. */
  lemma HeadingKeepsStars(line: string)
    requires line == "# **Day 1**"
    ensures Markup(Classify(line)) == SectionHeading("**Day 1**")
  {
    assert line == "#" + [' '] + "**Day 1**";
    SectionHeadingShape("#", ' ', "**Day 1**");
  }

  /** A bullet's content goes through `renderText`: a leading `**x**` becomes `<strong>x</strong>`. */
  lemma BulletRendersBold(m: char, c: char, x: string, t: string)
    requires IsBulletMarker(m) && IsSpace(c)
    requires PlainBoldContent(x) && '*' !in t
    ensures Markup(Classify([m, c] + ("**" + x + "**" + t))) == Bullet("<strong>" + x + "</strong>" + t)
  {
    BulletShape(m, c, "**" + x + "**" + t);
    LeadingBold(x, t);
  }

  /** `**x**` followed by star-free text renders as one `<strong>` element. */
  lemma LeadingBold(x: string, t: string)
    requires PlainBoldContent(x) && '*' !in t
    ensures RenderText("**" + x + "**" + t) == "<strong>" + x + "</strong>" + t
  {
    assert NoDoubleStar(t);
    BoldAround("", x, t);
    assert "" + "**" + x + "**" + t == "**" + x + "**" + t;
    var r := "<strong>" + x + "</strong>" + t;
    assert "" + "<strong>" + x + "</strong>" + t == r;
    assert '*' !in r by {
      forall k | 0 <= k < |r| ensures r[k] != '*' {
        if k < 8 + |x| + 9 {
          assert (k < 8 ==> r[k] == "<strong>"[k]) && (8 <= k < 8 + |x| ==> r[k] == x[k - 8]);
        } else {
          assert r[k] == t[k - 8 - |x| - 9];
        }
      }
    }
    ItalicPassStarFree(r);
  }

  /** Classifying a bullet's content again need not give a plain line: `- - x` is a bullet
      whose content `- x` is itself a bullet. */
  lemma BulletContentMayBeBullet(line: string)
    requires line == "- - x"
    ensures Classify(line) == Bullet("- x")
    ensures Classify(Classify(line).content) == Bullet("x")
  {
    assert line == ['-', ' '] + "- x";
    BulletShape('-', ' ', "- x");
    assert "- x" == ['-', ' '] + "x";
    BulletShape('-', ' ', "x");
  }
}
