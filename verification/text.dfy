/**
 The markup of the game's on-screen text: `~` followed by one character sets
 the colour (A to H select palette entries 10 to 17, any other character is
 passed through as is), a newline breaks the line, `_` toggles blinking, and
 every other character is literal text. tokenizeText splits a string into
 text runs and these control tokens.
 */
module TextUtil {

  /** The value of a colour token: a palette index for A..H, otherwise the
      character that followed `~` (empty when `~` ended the string). */
  datatype Color = Code(index: int) | Raw(payload: string)

  datatype Token = Text(value: string) | SetColor(color: Color) | Newline | Blink

  /** The colour named by the text after a `~`: its first character, or the
      empty string (`charAt` past the end) when there is none. */
  function ColorOf(rest: string): (c: Color)
    ensures c.Code? <==> |rest| > 0 && 'A' <= rest[0] <= 'H'
    ensures c.Code? ==> 10 <= c.index <= 17 && c.index - 10 == rest[0] as int - 'A' as int
    ensures c.Raw? ==> c.payload == rest[..if |rest| > 0 then 1 else 0]
  {
    if |rest| == 0 then Raw("")
    else if rest[0] == 'A' then Code(10)
    else if rest[0] == 'B' then Code(11)
    else if rest[0] == 'C' then Code(12)
    else if rest[0] == 'D' then Code(13)
    else if rest[0] == 'E' then Code(14)
    else if rest[0] == 'F' then Code(15)
    else if rest[0] == 'G' then Code(16)
    else if rest[0] == 'H' then Code(17)
    else Raw([rest[0]])
  }

  /** The pending text run as a token list: nothing when it is empty. */
  function Flush(run: string): seq<Token> {
    if |run| == 0 then [] else [Text(run)]
  }

  predicate IsControl(c: char) {
    c == '~' || c == '\n' || c == '_'
  }

  /** The token list of `t` when the text run `run` is still pending: the
      reference reading of the markup, one character at a time. */
  function Lex(t: string, run: string): seq<Token>
    decreases |t|
  {
    if |t| == 0 then Flush(run)
    else if t[0] == '~' then
      Flush(run) + [SetColor(ColorOf(t[1..]))] + Lex(if |t| > 1 then t[2..] else [], [])
    else if t[0] == '\n' then Flush(run) + [Newline] + Lex(t[1..], [])
    else if t[0] == '_' then Flush(run) + [Blink] + Lex(t[1..], [])
    else Lex(t[1..], run + [t[0]])
  }

  function Tokenize(t: string): seq<Token> {
    Lex(t, [])
  }

  /** `s.substring(a, b)`: both ends clamped to the string, swapped when the
      first exceeds the second. */
  function JsSubstring(s: string, a: int, b: int): (r: string)
    ensures 0 <= a <= b <= |s| ==> r == s[a..b]
  {
    var lo := if a < 0 then 0 else if a > |s| then |s| else a;
    var hi := if b < 0 then 0 else if b > |s| then |s| else b;
    if lo <= hi then s[lo..hi] else s[hi..lo]
  }

  /** handleTextToken: flush the `textLen` characters from `textStart` as one
      text token; the new text length is returned (0 after a flush). */
  function HandleTextToken(text: string, textStart: int, textLen: int, tokens: seq<Token>): (r: (seq<Token>, int))
    ensures textLen > 0 ==> r.1 == 0 && |r.0| == |tokens| + 1 && r.0[..|tokens|] == tokens
    ensures 0 <= textStart && 0 <= textLen && textStart + textLen <= |text| ==>
      r.0 == tokens + Flush(text[textStart..textStart + textLen])
    ensures textLen <= 0 ==> r == (tokens, textLen)
  {
    if textLen > 0 then
      (tokens + [Text(JsSubstring(text, textStart, textLen + textStart))], 0)
    else (tokens, textLen)
  }

  /* One lemma per branch of tokenizeText's loop: the tokens pushed so far
     followed by the reference reading of the rest stay the whole answer. */

  lemma StepPlain(text: string, pos: nat, textStart: nat, tokens: seq<Token>, whole: seq<Token>)
    requires textStart <= pos < |text| && !IsControl(text[pos])
    requires tokens + Lex(text[pos..], text[textStart..pos]) == whole
    ensures tokens + Lex(text[pos + 1..], text[textStart..pos + 1]) == whole
  {
    assert text[pos..][1..] == text[pos + 1..];
    assert text[textStart..pos + 1] == text[textStart..pos] + [text[pos]];
  }

  lemma StepMark(text: string, pos: nat, run: string, tok: Token, tokens: seq<Token>, whole: seq<Token>)
    requires pos < |text|
    requires (text[pos] == '\n' && tok == Newline) || (text[pos] == '_' && tok == Blink)
    requires tokens + Lex(text[pos..], run) == whole
    ensures (tokens + Flush(run) + [tok]) + Lex(text[pos + 1..], text[pos + 1..pos + 1]) == whole
  {
    assert text[pos..][1..] == text[pos + 1..];
    assert text[pos + 1..pos + 1] == [];
  }

  lemma StepColor(text: string, pos: nat, run: string, tokens: seq<Token>, whole: seq<Token>)
    requires pos < |text| && text[pos] == '~'
    requires tokens + Lex(text[pos..], run) == whole
    ensures pos + 1 < |text| ==>
      (tokens + Flush(run) + [SetColor(ColorOf(text[pos + 1..]))])
        + Lex(text[pos + 2..], text[pos + 2..pos + 2]) == whole
    ensures pos + 1 == |text| ==> tokens + Flush(run) + [SetColor(ColorOf(text[pos + 1..]))] == whole
  {
    assert text[pos..][1..] == text[pos + 1..];
    if pos + 1 < |text| {
      assert text[pos..][2..] == text[pos + 2..];
      assert text[pos + 2..pos + 2] == [];
    }
  }

  /** What the scan of tokenizeText knows before reading position pos: the
      pending run is text[textStart..pos], and the tokens pushed so far
      followed by the reading of the rest make the whole answer. */
  ghost predicate ScanInvariant(text: string, whole: seq<Token>, tokens: seq<Token>, textStart: int, textLen: int, pos: int) {
    && 0 <= textStart && 0 <= textLen && textStart + textLen == pos <= |text| + 1
    && (pos <= |text| ==> tokens + Lex(text[pos..], text[textStart..pos]) == whole)
    && (pos == |text| + 1 ==> textLen == 0 && tokens == whole)
  }

  /** One pass of the loop body of tokenizeText. */
  method ScanChar(text: string, ghost whole: seq<Token>, tokens: seq<Token>, textStart: int, textLen: int, pos: int)
    returns (tokens': seq<Token>, textStart': int, textLen': int, pos': int)
    requires pos < |text| && ScanInvariant(text, whole, tokens, textStart, textLen, pos)
    ensures ScanInvariant(text, whole, tokens', textStart', textLen', pos') && pos < pos'
  {
    var run := text[textStart..pos];
    tokens', textStart', textLen', pos' := tokens, textStart, textLen, pos;
    if text[pos'] == '~' {
      StepColor(text, pos, run, tokens, whole);
      var flushed := HandleTextToken(text, textStart', textLen', tokens');
      tokens', textLen' := flushed.0, flushed.1;
      pos' := pos' + 1;
      var color := ColorOf(text[pos'..]);
      tokens' := tokens' + [SetColor(color)];
      textStart' := pos' + 1;
    } else if text[pos'] == '\n' {
      StepMark(text, pos, run, Newline, tokens, whole);
      var flushed := HandleTextToken(text, textStart', textLen', tokens');
      tokens', textLen' := flushed.0, flushed.1;
      tokens' := tokens' + [Newline];
      textStart' := pos' + 1;
    } else if text[pos'] == '_' {
      StepMark(text, pos, run, Blink, tokens, whole);
      var flushed := HandleTextToken(text, textStart', textLen', tokens');
      tokens', textLen' := flushed.0, flushed.1;
      tokens' := tokens' + [Blink];
      textStart' := pos' + 1;
    } else {
      StepPlain(text, pos, textStart, tokens, whole);
      textLen' := textLen' + 1;
    }
    pos' := pos' + 1;
  }

  /** tokenizeText, written as entryway.js writes it: a scan with a text start, a text
      length and a position, flushing before each control character. */
  method TokenizeText(text: string) returns (tokens: seq<Token>)
    ensures tokens == Tokenize(text)
  {
    ghost var whole := Tokenize(text);
    tokens := [];
    var textStart := 0;
    var textLen := 0;
    var pos := 0;
    while pos < |text|
      invariant ScanInvariant(text, whole, tokens, textStart, textLen, pos)
      decreases |text| - pos
    {
      tokens, textStart, textLen, pos := ScanChar(text, whole, tokens, textStart, textLen, pos);
    }
    if pos == |text| {
      assert text[pos..] == [];
    }
    tokens := HandleTextToken(text, textStart, textLen, tokens).0;
  }

  /* ---------------------------------------------------------------------- */
  /* What the token list says about the input                                */
  /* ---------------------------------------------------------------------- */

  /** The letter that selects palette entry n (10 to 17). */
  function CodeLetter(n: int): char {
    if 10 <= n <= 17 then ('A' as int + n - 10) as char else '?'
  }

  /** The markup a token stands for. */
  function Spell(tok: Token): string {
    match tok
    case Text(v) => v
    case SetColor(Code(n)) => ['~', CodeLetter(n)]
    case SetColor(Raw(p)) => ['~'] + p
    case Newline => ['\n']
    case Blink => ['_']
  }

  /** The markup a token list stands for, token after token. */
  function Render(ts: seq<Token>): string {
    if |ts| == 0 then [] else Spell(ts[0]) + Render(ts[1..])
  }

  /** The text runs of a token list, joined. */
  function TextOf(ts: seq<Token>): string {
    if |ts| == 0 then [] else (if ts[0].Text? then ts[0].value else []) + TextOf(ts[1..])
  }

  /** The control tokens of a token list, in order. */
  function Controls(ts: seq<Token>): seq<Token> {
    if |ts| == 0 then [] else (if ts[0].Text? then [] else [ts[0]]) + Controls(ts[1..])
  }

  /** The literal characters of the markup: everything except the control
      characters and the character that follows each `~`. */
  function Plain(t: string): string
    decreases |t|
  {
    if |t| == 0 then []
    else if t[0] == '~' then (if |t| > 1 then Plain(t[2..]) else [])
    else if IsControl(t[0]) then Plain(t[1..])
    else [t[0]] + Plain(t[1..])
  }

  /** The control characters of the markup as tokens, in input order. */
  function ControlsOf(t: string): seq<Token>
    decreases |t|
  {
    if |t| == 0 then []
    else if t[0] == '~' then [SetColor(ColorOf(t[1..]))] + (if |t| > 1 then ControlsOf(t[2..]) else [])
    else if t[0] == '\n' then [Newline] + ControlsOf(t[1..])
    else if t[0] == '_' then [Blink] + ControlsOf(t[1..])
    else ControlsOf(t[1..])
  }

  predicate NoControl(s: string) {
    forall j :: 0 <= j < |s| ==> !IsControl(s[j])
  }

  /** A text token is never empty and holds no control character. */
  predicate GoodText(tok: Token) {
    tok.Text? ==> |tok.value| > 0 && NoControl(tok.value)
  }

  /** Text tokens are well formed and never two in a row. */
  predicate WellSplit(ts: seq<Token>) {
    && (forall i :: 0 <= i < |ts| ==> GoodText(ts[i]))
    && (forall i :: 0 <= i < |ts| - 1 ==> !ts[i].Text? || !ts[i + 1].Text?)
  }

  lemma {:induction false} RenderAppend(a: seq<Token>, b: seq<Token>)
    ensures Render(a + b) == Render(a) + Render(b)
    decreases |a|
  {
    if |a| > 0 {
      assert (a + b)[1..] == a[1..] + b;
      RenderAppend(a[1..], b);
    } else {
      assert a + b == b;
    }
  }

  lemma {:induction false} TextOfAppend(a: seq<Token>, b: seq<Token>)
    ensures TextOf(a + b) == TextOf(a) + TextOf(b)
    decreases |a|
  {
    if |a| > 0 {
      assert (a + b)[1..] == a[1..] + b;
      TextOfAppend(a[1..], b);
    } else {
      assert a + b == b;
    }
  }

  lemma {:induction false} ControlsAppend(a: seq<Token>, b: seq<Token>)
    ensures Controls(a + b) == Controls(a) + Controls(b)
    decreases |a|
  {
    if |a| > 0 {
      assert (a + b)[1..] == a[1..] + b;
      ControlsAppend(a[1..], b);
    } else {
      assert a + b == b;
    }
  }

  /** A control character flushes the pending run and then emits its token. */
  function Flushed(run: string, tok: Token, rest: seq<Token>): seq<Token> {
    Flush(run) + [tok] + rest
  }

  lemma RenderFlushed(run: string, tok: Token, rest: seq<Token>)
    ensures Render(Flushed(run, tok, rest)) == run + Spell(tok) + Render(rest)
  {
    var f := Flush(run);
    RenderAppend(f + [tok], rest);
    RenderAppend(f, [tok]);
    assert Render([tok]) == Spell(tok) by {
      assert [tok][1..] == [];
    }
    assert Render(f) == run by {
      if |run| > 0 {
        assert f[1..] == [];
      }
    }
  }

  lemma TextOfFlushed(run: string, tok: Token, rest: seq<Token>)
    requires !tok.Text?
    ensures TextOf(Flushed(run, tok, rest)) == run + TextOf(rest)
  {
    TextOfAppend(Flush(run) + [tok], rest);
    TextOfAppend(Flush(run), [tok]);
  }

  lemma ControlsFlushed(run: string, tok: Token, rest: seq<Token>)
    requires !tok.Text?
    ensures Controls(Flushed(run, tok, rest)) == [tok] + Controls(rest)
  {
    ControlsAppend(Flush(run) + [tok], rest);
    ControlsAppend(Flush(run), [tok]);
  }

  /** The spelling of the colour read after a `~` is that `~` and the
      character it consumed. */
  lemma SpellColor(t: string)
    requires |t| > 0 && t[0] == '~'
    ensures Spell(SetColor(ColorOf(t[1..]))) + (if |t| > 1 then t[2..] else []) == t
  {
    if |t| > 1 {
      assert t == ['~', t[1]] + t[2..];
    } else {
      assert t == ['~'];
    }
  }

  /** The reference reading, one character at a time, in terms of Flushed. */
  lemma LexStep(t: string, run: string)
    requires |t| > 0
    ensures t[0] == '~' ==>
      Lex(t, run) == Flushed(run, SetColor(ColorOf(t[1..])), Lex(if |t| > 1 then t[2..] else [], []))
    ensures t[0] == '\n' ==> Lex(t, run) == Flushed(run, Newline, Lex(t[1..], []))
    ensures t[0] == '_' ==> Lex(t, run) == Flushed(run, Blink, Lex(t[1..], []))
    ensures !IsControl(t[0]) ==> Lex(t, run) == Lex(t[1..], run + [t[0]])
  {
  }

  /** The control-character case of LexRender, given the rest. */
  lemma RenderControlCase(t: string, run: string, tok: Token, skip: nat, rest: seq<Token>)
    requires 0 < skip <= |t| && Spell(tok) == t[..skip] && Render(rest) == t[skip..]
    ensures Render(Flushed(run, tok, rest)) == run + t
  {
    RenderFlushed(run, tok, rest);
    assert t == t[..skip] + t[skip..];
    assert run + t[..skip] + t[skip..] == run + (t[..skip] + t[skip..]);
  }

  /** Tokenizing loses nothing: the markup spelled back from the tokens is
      the input, with the pending run in front. */
  lemma {:induction false} LexRender(t: string, run: string)
    ensures Render(Lex(t, run)) == run + t
    decreases |t|
  {
    if |t| == 0 {
      assert Render(Flush(run)) == run;
    } else {
      LexStep(t, run);
      if t[0] == '~' {
        var skip := if |t| > 1 then 2 else 1;
        assert t[skip..] == if |t| > 1 then t[2..] else [];
        SpellColor(t);
        assert Spell(SetColor(ColorOf(t[1..]))) == t[..skip];
        LexRender(t[skip..], []);
        RenderControlCase(t, run, SetColor(ColorOf(t[1..])), skip, Lex(t[skip..], []));
      } else if t[0] == '\n' || t[0] == '_' {
        LexRender(t[1..], []);
        RenderControlCase(t, run, if t[0] == '\n' then Newline else Blink, 1, Lex(t[1..], []));
      } else {
        LexRender(t[1..], run + [t[0]]);
        assert run + [t[0]] + t[1..] == run + t;
      }
    }
  }

  lemma PlainStep(t: string)
    requires |t| > 0
    ensures t[0] == '~' ==> Plain(t) == Plain(if |t| > 1 then t[2..] else [])
    ensures t[0] == '\n' || t[0] == '_' ==> Plain(t) == Plain(t[1..])
    ensures !IsControl(t[0]) ==> Plain(t) == [t[0]] + Plain(t[1..])
  {
  }

  lemma {:induction false} LexText(t: string, run: string)
    ensures TextOf(Lex(t, run)) == run + Plain(t)
    decreases |t|
  {
    if |t| == 0 {
      assert TextOf(Flush(run)) == run;
    } else {
      LexStep(t, run);
      PlainStep(t);
      if IsControl(t[0]) {
        var rest := if t[0] == '~' then (if |t| > 1 then t[2..] else []) else t[1..];
        var tok := if t[0] == '~' then SetColor(ColorOf(t[1..])) else if t[0] == '\n' then Newline else Blink;
        assert Lex(t, run) == Flushed(run, tok, Lex(rest, [])) && Plain(t) == Plain(rest);
        LexText(rest, []);
        TextOfFlushed(run, tok, Lex(rest, []));
        assert [] + Plain(rest) == Plain(rest);
      } else {
        LexText(t[1..], run + [t[0]]);
        assert run + [t[0]] + Plain(t[1..]) == run + ([t[0]] + Plain(t[1..]));
      }
    }
  }

  lemma {:induction false} LexControls(t: string, run: string)
    ensures Controls(Lex(t, run)) == ControlsOf(t)
    decreases |t|
  {
    if |t| == 0 {
      assert Controls(Flush(run)) == [];
    } else {
      LexStep(t, run);
      if t[0] == '~' {
        var rest := if |t| > 1 then t[2..] else [];
        LexControls(rest, []);
        ControlsFlushed(run, SetColor(ColorOf(t[1..])), Lex(rest, []));
      } else if t[0] == '\n' || t[0] == '_' {
        LexControls(t[1..], []);
        ControlsFlushed(run, if t[0] == '\n' then Newline else Blink, Lex(t[1..], []));
      } else {
        LexControls(t[1..], run + [t[0]]);
      }
    }
  }

  /** A control token, then a well-split list, after at most one text run. */
  lemma WellSplitFlushed(run: string, tok: Token, rest: seq<Token>)
    requires !tok.Text? && NoControl(run) && WellSplit(rest)
    ensures WellSplit(Flush(run) + [tok] + rest)
  {
    var ts := Flush(run) + [tok] + rest;
    var n := |Flush(run)|;
    assert forall i :: n < i < |ts| ==> ts[i] == rest[i - n - 1];
  }

  lemma {:induction false} LexWellSplit(t: string, run: string)
    requires NoControl(run)
    ensures WellSplit(Lex(t, run))
    decreases |t|
  {
    if |t| == 0 {
    } else if t[0] == '~' {
      var rest := if |t| > 1 then t[2..] else [];
      LexWellSplit(rest, []);
      WellSplitFlushed(run, SetColor(ColorOf(t[1..])), Lex(rest, []));
    } else if t[0] == '\n' || t[0] == '_' {
      LexWellSplit(t[1..], []);
      WellSplitFlushed(run, if t[0] == '\n' then Newline else Blink, Lex(t[1..], []));
    } else {
      LexWellSplit(t[1..], run + [t[0]]);
    }
  }

  /** What tokenizeText promises: no empty text token, no text token holding
      a control character, no two text tokens in a row; the text runs joined
      are the literal characters, the control tokens come in input order,
      and the tokens spell the input back exactly. */
  lemma TokenizeFaithful(t: string)
    ensures WellSplit(Tokenize(t))
    ensures TextOf(Tokenize(t)) == Plain(t)
    ensures Controls(Tokenize(t)) == ControlsOf(t)
    ensures Render(Tokenize(t)) == t
  {
    LexRender(t, []);
    LexText(t, []);
    LexControls(t, []);
    LexWellSplit(t, []);
  }

  /** Worked examples: a colour letter, a text run and a blink marker; and
      a `~` that ends the string. */
  lemma TokenizeExample()
    ensures Tokenize("~Ba_") == [SetColor(Code(11)), Text("a"), Blink]
    ensures Tokenize("x~") == [Text("x"), SetColor(Raw(""))]
  {
    assert "~Ba_"[2..] == "a_" && "a_"[1..] == "_" && "" + ['a'] == "a";
    assert Lex("a_", "") == Lex("_", "a");
    assert "x~"[1..] == "~" && "" + ['x'] == "x";
    assert Lex("x~", "") == Lex("~", "x");
  }
}
