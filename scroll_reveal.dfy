/** The text splitting of the `ScrollReveal` component: its text is cut into
    lines (line mode) or into words and the white space between them (word
    mode), each of which is then animated on its own. */
module ScrollReveal {
  import opened Wrappers
  import opened Text
  import Js

  /** A piece of word-mode output: a white-space run rendered raw, or a word
      wrapped in its own element. */
  datatype Piece = Space(space: string) | Word(word: string)

  /** What `splitText` renders: one entry per line (`None` for a blank line),
      or the pieces of word mode. */
  datatype Split = Lines(entries: seq<Option<string>>) | Pieces(pieces: seq<Piece>)

  /** The first index at or after `i` holding `c`, or `|s|`. */
  function IndexOf(s: string, c: char, i: nat): (k: nat)
    requires i <= |s|
    ensures i <= k <= |s|
    ensures forall j :: i <= j < k ==> s[j] != c
    ensures k < |s| ==> s[k] == c
    decreases |s| - i
  {
    if i == |s| || s[i] == c then i else IndexOf(s, c, i + 1)
  }

  /** `s.split("\n")`: the pieces between line feeds; there is always at
      least one. */
  function SplitLines(s: string): (r: seq<string>)
    ensures |r| >= 1
    ensures forall i :: 0 <= i < |r| ==> '\n' !in r[i]
    decreases |s|
  {
    var k := IndexOf(s, '\n', 0);
    if k == |s| then [s] else [s[..k]] + SplitLines(s[k + 1..])
  }

  /** `lines.join("\n")`. */
  function JoinLines(r: seq<string>): string
    requires |r| >= 1
  {
    if |r| == 1 then r[0] else r[0] + "\n" + JoinLines(r[1..])
  }

  /** Splitting at line feeds loses nothing: joining the lines gives the
      text back. */
  lemma {:induction false} LinesRoundTrip(s: string)
    ensures JoinLines(SplitLines(s)) == s
    decreases |s|
  {
    var k := IndexOf(s, '\n', 0);
    if k < |s| {
      LinesRoundTrip(s[k + 1..]);
      assert s == s[..k] + "\n" + s[k + 1..];
    }
  }

  /** A line of line mode: nothing for a blank line, the trimmed line
      otherwise. */
  function LineEntry(line: string): (e: Option<string>)
    ensures e.None? <==> IsBlank(line)
    ensures e.Some? ==> e.value == Trim(line) && e.value != ""
  {
    if Trim(line) == "" then None else Some(Trim(line))
  }

  /** The first white-space index at or after `i`, or `|s|`. */
  function NextSpace(s: string, i: nat): (k: nat)
    requires i <= |s|
    ensures i <= k <= |s|
    ensures forall j :: i <= j < k ==> !IsSpace(s[j])
    ensures k < |s| ==> IsSpace(s[k])
    decreases |s| - i
  {
    if i == |s| || IsSpace(s[i]) then i else NextSpace(s, i + 1)
  }

  /** `s.split(/(\s+)/)`: words and the white-space runs between them,
      alternating and starting and ending with a word, which may be empty. */
  function SplitWords(s: string): (r: seq<string>)
    ensures |r| % 2 == 1
    ensures forall i :: 0 <= i < |r| && i % 2 == 0 ==> NoSpace(r[i])
    ensures forall i :: 0 <= i < |r| && i % 2 == 1 ==> r[i] != [] && IsBlank(r[i])
    decreases |s|
  {
    var k := NextSpace(s, 0);
    if k == |s| then [s]
    else
      var e := SkipSpaces(s, k);
      var rest := SplitWords(s[e..]);
      var r := [s[..k], s[k..e]] + rest;
      assert forall i :: 2 <= i < |r| ==> r[i] == rest[i - 2];
      r
  }

  /** The concatenation of a list of strings. */
  function Concat(r: seq<string>): string {
    if r == [] then [] else r[0] + Concat(r[1..])
  }

  lemma ConcatTwo(a: string, b: string, rest: seq<string>)
    ensures Concat([a, b] + rest) == a + (b + Concat(rest))
  {
    var r := [a, b] + rest;
    assert r[1..][1..] == rest;
  }

  /** One step of `SplitWords`: the first word, the white-space run after it,
      then the tokens of the rest. */
  lemma SplitWordsStep(s: string)
    requires NextSpace(s, 0) < |s|
    ensures var k := NextSpace(s, 0);
            var e := SkipSpaces(s, k);
            SplitWords(s) == [s[..k], s[k..e]] + SplitWords(s[e..])
  {
  }

  lemma SliceThree(s: string, k: nat, e: nat)
    requires k <= e <= |s|
    ensures s == s[..k] + (s[k..e] + s[e..])
  {
  }

  /** Word-mode splitting loses nothing: the tokens, in order, spell out the
      text. */
  lemma {:induction false} WordsRoundTrip(s: string)
    ensures Concat(SplitWords(s)) == s
    decreases |s|
  {
    var k := NextSpace(s, 0);
    if k < |s| {
      var e := SkipSpaces(s, k);
      WordsRoundTrip(s[e..]);
      SplitWordsStep(s);
      ConcatTwo(s[..k], s[k..e], SplitWords(s[e..]));
      SliceThree(s, k, e);
    }
  }

  /** `word.match(/^\s+$/) ? word : <span>{word}</span>`. */
  function PieceOf(token: string): (p: Piece)
    ensures p.Space? <==> token != [] && IsBlank(token)
  {
    if token != [] && IsBlank(token) then Space(token) else Word(token)
  }

  /** The tokens of `SplitWords` alternate: a word at every even position
      (it has no white space, so it is not a white-space run) and a
      white-space run at every odd one. */
  lemma TokenPieces(tokens: seq<string>)
    requires forall i :: 0 <= i < |tokens| && i % 2 == 0 ==> NoSpace(tokens[i])
    requires forall i :: 0 <= i < |tokens| && i % 2 == 1 ==> tokens[i] != [] && IsBlank(tokens[i])
    ensures forall i :: 0 <= i < |tokens| ==>
              PieceOf(tokens[i]) == (if i % 2 == 0 then Word(tokens[i]) else Space(tokens[i]))
  {
    forall i | 0 <= i < |tokens|
      ensures PieceOf(tokens[i]) == (if i % 2 == 0 then Word(tokens[i]) else Space(tokens[i]))
    {
      if i % 2 == 0 && tokens[i] != [] {
        assert !IsSpace(tokens[i][0]);
      }
    }
  }

  /** `splitText`: the children when they are a string (the empty text
      otherwise), cut by the animation mode. */
  function SplitText(children: Js.Value, animationMode: string): (r: Split)
    ensures animationMode == "line" <==> r.Lines?
    ensures r.Lines? ==>
              var lines := SplitLines(Js.StringOr(children, ""));
              |r.entries| == |lines| && forall i :: 0 <= i < |lines| ==> r.entries[i] == LineEntry(lines[i])
    ensures r.Pieces? ==>
              var tokens := SplitWords(Js.StringOr(children, ""));
              && |r.pieces| == |tokens|
              && forall i :: 0 <= i < |tokens| ==>
                   (r.pieces[i].Word? <==> i % 2 == 0)
                   && r.pieces[i] == (if i % 2 == 0 then Word(tokens[i]) else Space(tokens[i]))
  {
    var text := Js.StringOr(children, "");
    if animationMode == "line" then
      var lines := SplitLines(text);
      Lines(seq(|lines|, i requires 0 <= i < |lines| => LineEntry(lines[i])))
    else
      var tokens := SplitWords(text);
      TokenPieces(tokens);
      Pieces(seq(|tokens|, i requires 0 <= i < |tokens| => PieceOf(tokens[i])))
  }

  /** The text of word mode's pieces, words and white space alike. */
  function PiecesText(ps: seq<Piece>): string {
    if ps == [] then [] else (match ps[0] case Space(w) => w case Word(w) => w) + PiecesText(ps[1..])
  }

  /** Word mode renders every character of the text exactly once, in order:
      its pieces spell out the text (a non-string child reads as the empty
      text). */
  lemma {:induction false} WordModeKeepsText(children: Js.Value, animationMode: string)
    requires animationMode != "line"
    ensures PiecesText(SplitText(children, animationMode).pieces) == Js.StringOr(children, "")
  {
    var text := Js.StringOr(children, "");
    WordsRoundTrip(text);
    PiecesSpell(SplitText(children, animationMode).pieces, SplitWords(text));
  }

  lemma {:induction false} PiecesSpell(ps: seq<Piece>, tokens: seq<string>)
    requires |ps| == |tokens|
    requires forall i :: 0 <= i < |ps| ==> ps[i] == Word(tokens[i]) || ps[i] == Space(tokens[i])
    ensures PiecesText(ps) == Concat(tokens)
  {
    if ps != [] {
      PiecesSpell(ps[1..], tokens[1..]);
    }
  }
}
