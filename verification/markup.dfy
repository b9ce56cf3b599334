/**
  The 2D engine's inline-markup text (`Text::setString`): a byte scanner that turns
  `^( ... )` style directives and line breaks into a list of styled runs.

  The scanner slices one byte at a time, so a non-ASCII character, a `^` at the very end or
  a `^(` without its `)` makes it panic; `Parse` returns `None` for exactly those inputs.
*/
module Markup {
  import opened Basics

  /** The four TTF style bits; all clear is NORMAL. */
  datatype Style = Style(bold: bool, italic: bool, underline: bool, strikethrough: bool)

  const Normal: Style := Style(false, false, false, false)

  /** One styled run; `newline` marks a line break seen while the run was open. */
  datatype TextPart = TextPart(txt: string, style: Style, newline: bool)

  /** `TextPart::new` */
  const NewPart: TextPart := TextPart("", Normal, false)

  predicate IsAscii(c: char) { c as int < 128 }

  predicate AllAscii(s: string) { forall i :: 0 <= i < |s| ==> IsAscii(s[i]) }

  // ----- Directive bodies -----

  /** Rust's `split(" ")`: the pieces between single spaces, empty pieces included. */
  function Split(s: string): (r: seq<string>)
    ensures |r| >= 1
    ensures forall k :: 0 <= k < |r| ==> ' ' !in r[k]
    decreases |s|
  {
    if ' ' !in s then [s]
    else
      var k := FirstSpace(s, 0);
      [s[..k]] + Split(s[k + 1..])
  }

  function FirstSpace(s: string, from: nat): (k: nat)
    requires from <= |s| && ' ' in s[from..]
    ensures from <= k < |s| && s[k] == ' ' && ' ' !in s[from..k]
    decreases |s| - from
  {
    if s[from] == ' ' then from
    else
      assert s[from..] == [s[from]] + s[from + 1..];
      FirstSpace(s, from + 1)
  }

  /** Joins pieces with single spaces. */
  function Join(pieces: seq<string>): string
    requires |pieces| >= 1
  {
    if |pieces| == 1 then pieces[0] else pieces[0] + " " + Join(pieces[1..])
  }

  /** Splitting loses nothing: joining the pieces gives back the directive body. */
  lemma {:induction false} JoinSplit(s: string)
    ensures Join(Split(s)) == s
    decreases |s|
  {
    if ' ' in s {
      var k := FirstSpace(s, 0);
      var rest := Split(s[k + 1..]);
      var r := [s[..k]] + rest;
      assert Split(s) == r;
      assert r[0] == s[..k] && r[1..] == rest;
      JoinSplit(s[k + 1..]);
      assert s == s[..k] + " " + s[k + 1..];
    }
  }

  /** The style bits one token ORs in: `*` bold, `/` italic, `_` underline, `-` strikethrough. */
  function ApplyToken(st: Style, token: string): Style {
    if token == "*" then st.(bold := true)
    else if token == "/" then st.(italic := true)
    else if token == "_" then st.(underline := true)
    else if token == "-" then st.(strikethrough := true)
    else st
  }

  /** The style after the tokens of one directive, left to right. */
  function ApplyTokens(st: Style, tokens: seq<string>): Style
  {
    if tokens == [] then st else ApplyToken(ApplyTokens(st, tokens[..|tokens| - 1]), tokens[|tokens| - 1])
  }

  /** Flags are only ever added, each exactly when its token occurs; other tokens are ignored. */
  lemma {:induction false} ApplyTokensFlags(st: Style, tokens: seq<string>)
    ensures var r := ApplyTokens(st, tokens);
      (r.bold <==> st.bold || "*" in tokens) &&
      (r.italic <==> st.italic || "/" in tokens) &&
      (r.underline <==> st.underline || "_" in tokens) &&
      (r.strikethrough <==> st.strikethrough || "-" in tokens)
    decreases |tokens|
  {
    if tokens != [] {
      var front := tokens[..|tokens| - 1];
      ApplyTokensFlags(st, front);
      assert tokens == front + [tokens[|tokens| - 1]];
    }
  }

  // ----- The scanner -----

  /** The first `)` at or after `j`. */
  function Close(s: string, j: nat): (r: Option<nat>)
    requires j <= |s|
    ensures r.None? ==> forall m :: j <= m < |s| ==> s[m] != ')'
    ensures r.Some? ==> j <= r.value < |s| && s[r.value] == ')' &&
                        forall m :: j <= m < r.value ==> s[m] != ')'
    decreases |s| - j
  {
    if j == |s| then None else if s[j] == ')' then Some(j) else Close(s, j + 1)
  }

  /**
    The scanner from byte `i` on, with the pending run `part` and the runs `acc` already
    pushed; `None` where `setString` panics.
  */
  function Scan(s: string, i: nat, part: TextPart, acc: seq<TextPart>): Option<seq<TextPart>>
    requires i <= |s|
    decreases |s| - i
  {
    if i == |s| then Some(acc + [part])
    else if s[i] == '^' then
      if i + 1 == |s| then None
      else if s[i + 1] != '(' then Scan(s, i + 1, part, acc)
      else
        var acc1 := if part.txt != [] then acc + [part] else acc;
        var part1 := if part.txt != [] then NewPart else part;
        match Close(s, i + 2)
        case None => None
        case Some(k) => Scan(s, k + 1, part1.(style := ApplyTokens(part1.style, Split(s[i + 2..k]))), acc1)
    else if s[i] == '\n' then Scan(s, i + 1, part.(newline := true), acc)
    else Scan(s, i + 1, part.(txt := part.txt + [s[i]]), acc)
  }

  /**
    The runs `setString(s)` stores, or `None` where it panics. Every byte is sliced on the
    way, so any non-ASCII character panics once it is reached.
  */
  function Parse(s: string): (r: Option<seq<TextPart>>)
    ensures r.Some? ==> AllAscii(s) && |r.value| >= 1
  {
    if AllAscii(s) then ScanAcc(s, 0, NewPart, []); Scan(s, 0, NewPart, []) else None
  }

  // ----- What the runs contain -----

  /** The visible text: the input without directives, line breaks and stray `^`. */
  function Strip(s: string, i: nat): string
    requires i <= |s|
    decreases |s| - i
  {
    if i == |s| then []
    else if s[i] == '^' then
      if i + 1 < |s| && s[i + 1] == '(' then
        match Close(s, i + 2)
        case None => []
        case Some(k) => Strip(s, k + 1)
      else Strip(s, i + 1)
    else if s[i] == '\n' then Strip(s, i + 1)
    else [s[i]] + Strip(s, i + 1)
  }

  /** The run texts, concatenated. */
  function Texts(runs: seq<TextPart>): string {
    if runs == [] then [] else Texts(runs[..|runs| - 1]) + runs[|runs| - 1].txt
  }

  lemma TextsAppend(runs: seq<TextPart>, p: TextPart)
    ensures Texts(runs + [p]) == Texts(runs) + p.txt
  {
    assert (runs + [p])[..|runs|] == runs;
  }

  /** Concatenating the runs reproduces the visible text, in order, with nothing lost or added. */
  lemma {:induction false} ScanTexts(s: string, i: nat, part: TextPart, acc: seq<TextPart>)
    requires i <= |s| && Scan(s, i, part, acc).Some?
    ensures Texts(Scan(s, i, part, acc).value) == Texts(acc) + part.txt + Strip(s, i)
    decreases |s| - i
  {
    if i == |s| {
      TextsAppend(acc, part);
    } else if s[i] == '^' {
      if s[i + 1] != '(' {
        ScanTexts(s, i + 1, part, acc);
      } else {
        var k := Close(s, i + 2).value;
        var acc1 := if part.txt != [] then acc + [part] else acc;
        var part1 := if part.txt != [] then NewPart else part;
        ScanTexts(s, k + 1, part1.(style := ApplyTokens(part1.style, Split(s[i + 2..k]))), acc1);
        if part.txt != [] {
          TextsAppend(acc, part);
        }
      }
    } else if s[i] == '\n' {
      ScanTexts(s, i + 1, part.(newline := true), acc);
    } else {
      ScanTexts(s, i + 1, part.(txt := part.txt + [s[i]]), acc);
    }
  }

  lemma ParseTexts(s: string)
    requires Parse(s).Some?
    ensures Texts(Parse(s).value) == Strip(s, 0)
  {
    ScanTexts(s, 0, NewPart, []);
  }

  /** No run text holds a line break or a `^`. */
  predicate Clean(p: TextPart) { '\n' !in p.txt && '^' !in p.txt }

  /**
    The runs already pushed stay as they are (a directive never restyles an earlier run),
    at least one run follows them, no run text holds a line break or `^`, and only the
    last run can be empty.
  */
  lemma {:induction false} ScanShape(s: string, i: nat, part: TextPart, acc: seq<TextPart>)
    requires i <= |s| && Scan(s, i, part, acc).Some?
    requires Clean(part) && forall k :: 0 <= k < |acc| ==> Clean(acc[k]) && acc[k].txt != []
    ensures var r := Scan(s, i, part, acc).value;
      acc < r &&
      (forall k :: 0 <= k < |r| ==> Clean(r[k])) &&
      (forall k :: 0 <= k < |r| - 1 ==> r[k].txt != [])
    decreases |s| - i
  {
    if i == |s| {
    } else if s[i] == '^' {
      if s[i + 1] != '(' {
        ScanShape(s, i + 1, part, acc);
      } else {
        var k := Close(s, i + 2).value;
        var acc1 := if part.txt != [] then acc + [part] else acc;
        var part1 := if part.txt != [] then NewPart else part;
        ScanShape(s, k + 1, part1.(style := ApplyTokens(part1.style, Split(s[i + 2..k]))), acc1);
      }
    } else if s[i] == '\n' {
      ScanShape(s, i + 1, part.(newline := true), acc);
    } else {
      ScanShape(s, i + 1, part.(txt := part.txt + [s[i]]), acc);
    }
  }

  lemma ParseShape(s: string)
    requires Parse(s).Some?
    ensures var r := Parse(s).value;
      |r| >= 1 &&
      (forall k :: 0 <= k < |r| ==> Clean(r[k])) &&
      (forall k :: 0 <= k < |r| - 1 ==> r[k].txt != [])
  {
    ScanShape(s, 0, NewPart, []);
  }

  /**
    Without `^`, the whole input is one run in the current style: its text is the input
    without line breaks, and it is marked as a line break exactly when the input holds one.
  */
  lemma {:induction false} ScanPlain(s: string, i: nat, part: TextPart, acc: seq<TextPart>)
    requires i <= |s| && forall m :: i <= m < |s| ==> s[m] != '^'
    ensures Scan(s, i, part, acc)
         == Some(acc + [TextPart(part.txt + Strip(s, i), part.style, part.newline || '\n' in s[i..])])
    decreases |s| - i
  {
    if i < |s| {
      var rest := s[i + 1..];
      assert s[i..] == [s[i]] + rest;
      if s[i] == '\n' {
        var p := part.(newline := true);
        assert Scan(s, i, part, acc) == Scan(s, i + 1, p, acc);
        assert Strip(s, i) == Strip(s, i + 1);
        ScanPlain(s, i + 1, p, acc);
      } else {
        var p := part.(txt := part.txt + [s[i]]);
        assert Scan(s, i, part, acc) == Scan(s, i + 1, p, acc);
        assert Strip(s, i) == [s[i]] + Strip(s, i + 1);
        assert ('\n' in s[i..]) == ('\n' in rest);
        ScanPlain(s, i + 1, p, acc);
        assert p.txt + Strip(s, i + 1) == part.txt + Strip(s, i);
      }
    } else {
      assert part.txt + Strip(s, i) == part.txt;
      assert s[i..] == [];
    }
  }

  /** An ASCII input with no `^` and no line break is one NORMAL run holding the input. */
  lemma ParsePlain(s: string)
    requires AllAscii(s) && '^' !in s && '\n' !in s
    ensures Parse(s) == Some([TextPart(s, Normal, false)])
  {
    ScanPlain(s, 0, NewPart, []);
    assert s[0..] == s;
    PlainStrip(s, 0);
    assert NewPart.txt + Strip(s, 0) == s;
    assert [] + [TextPart(s, Normal, false)] == [TextPart(s, Normal, false)];
  }

  lemma {:induction false} PlainStrip(s: string, i: nat)
    requires i <= |s| && '^' !in s && '\n' !in s
    ensures Strip(s, i) == s[i..]
    decreases |s| - i
  {
    if i < |s| {
      PlainStrip(s, i + 1);
      assert s[i..] == [s[i]] + s[i + 1..];
    }
  }

  /** The empty string is one empty NORMAL run; a trailing `^` or an unclosed `^(` panics. */
  lemma EdgeExamples()
    ensures Parse("") == Some([NewPart])
    ensures Parse("abc^") == None
    ensures Parse("a^(*b") == None
  {
    assert [] + [NewPart] == [NewPart];
  }

  /** A `^` not followed by `(` is dropped. */
  lemma StrayCaretExample()
    ensures Parse("a^b") == Some([TextPart("ab", Normal, false)])
  {
    var s := "a^b";
    assert AllAscii(s);
    assert NewPart.(txt := NewPart.txt + ['a']) == TextPart("a", Normal, false);
    assert Scan(s, 0, NewPart, []) == Scan(s, 1, TextPart("a", Normal, false), []);
    assert Scan(s, 1, TextPart("a", Normal, false), []) == Scan(s, 2, TextPart("a", Normal, false), []);
    assert TextPart("a", Normal, false).(txt := "a" + ['b']) == TextPart("ab", Normal, false);
    assert [] + [TextPart("ab", Normal, false)] == [TextPart("ab", Normal, false)];
  }

  /** Back-to-back directives accumulate on the run that follows them. */
  lemma StackedExample()
    ensures Parse("^(*)^(/)x") == Some([TextPart("x", Style(true, true, false, false), false)])
  {
    var s := "^(*)^(/)x";
    assert AllAscii(s);
    assert Close(s, 2) == Some(3);
    assert s[2..3] == "*" && Split("*") == ["*"];
    assert ApplyTokens(Normal, ["*"]) == Normal.(bold := true) by { assert ["*"][..0] == []; }
    var p1 := NewPart.(style := Normal.(bold := true));
    assert Scan(s, 0, NewPart, []) == Scan(s, 4, p1, []);
    assert Close(s, 6) == Some(7);
    assert s[6..7] == "/" && Split("/") == ["/"];
    assert ApplyTokens(p1.style, ["/"]) == p1.style.(italic := true) by { assert ["/"][..0] == []; }
    var p2 := p1.(style := p1.style.(italic := true));
    assert Scan(s, 4, p1, []) == Scan(s, 8, p2, []);
    assert p2.txt + ['x'] == "x";
    assert Scan(s, 8, p2, []) == Scan(s, 9, p2.(txt := "x"), []);
    assert [] + [p2.(txt := "x")] == [p2.(txt := "x")];
  }

  /** A directive closes a non-empty run and styles the next one; unknown tokens are ignored. */
  lemma FlushExample()
    ensures Parse("ab^(_ x)cd") == Some([TextPart("ab", Normal, false), TextPart("cd", Normal.(underline := true), false)])
  {
    var s := "ab^(_ x)cd";
    assert AllAscii(s);
    var ab := TextPart("ab", Normal, false);
    assert NewPart.(txt := NewPart.txt + ['a']) == TextPart("a", Normal, false);
    assert TextPart("a", Normal, false).(txt := "a" + ['b']) == ab;
    assert Scan(s, 0, NewPart, []) == Scan(s, 1, TextPart("a", Normal, false), []);
    assert Scan(s, 0, NewPart, []) == Scan(s, 2, ab, []);
    assert Close(s, 4) == Some(7);
    assert s[4..7] == "_ x";
    assert FirstSpace("_ x", 0) == 1;
    assert Split("_ x") == ["_", "x"];
    var u := NewPart.(style := Normal.(underline := true));
    assert ApplyTokens(Normal, ["_", "x"]) == Normal.(underline := true) by {
      assert ["_", "x"][..1] == ["_"];
      assert ["_"][..0] == [];
    }
    assert [] + [ab] == [ab];
    assert Scan(s, 2, ab, []) == Scan(s, 8, u, [ab]);
    assert u.txt + ['c'] == "c" && "c" + ['d'] == "cd";
    assert Scan(s, 8, u, [ab]) == Scan(s, 9, u.(txt := "c"), [ab]);
    assert Scan(s, 9, u.(txt := "c"), [ab]) == Scan(s, 10, u.(txt := "cd"), [ab]);
    assert [ab] + [u.(txt := "cd")] == [ab, u.(txt := "cd")];
  }

  // ----- How directives style the runs -----

  /** The flags of two styles together. */
  function Or(a: Style, b: Style): Style {
    Style(a.bold || b.bold, a.italic || b.italic, a.underline || b.underline, a.strikethrough || b.strikethrough)
  }

  /** Tokens only add flags, so flags set beforehand are simply carried along. */
  lemma {:induction false} ApplyTokensOr(st: Style, p: Style, tokens: seq<string>)
    ensures ApplyTokens(Or(st, p), tokens) == Or(st, ApplyTokens(p, tokens))
    decreases |tokens|
  {
    if tokens != [] {
      ApplyTokensOr(st, p, tokens[..|tokens| - 1]);
    }
  }

  /** The runs already pushed are carried through the scan untouched, and the scan pushes at least one more. */
  lemma {:induction false} ScanAcc(s: string, i: nat, part: TextPart, acc: seq<TextPart>)
    requires i <= |s|
    ensures Scan(s, i, part, acc).Some? <==> Scan(s, i, part, []).Some?
    ensures Scan(s, i, part, acc).Some? ==>
      |Scan(s, i, part, []).value| >= 1 && Scan(s, i, part, acc).value == acc + Scan(s, i, part, []).value
    decreases |s| - i
  {
    if i < |s| {
      if s[i] == '^' {
        if i + 1 < |s| {
          if s[i + 1] != '(' {
            ScanAcc(s, i + 1, part, acc);
          } else if Close(s, i + 2).Some? {
            var k := Close(s, i + 2).value;
            var part1 := if part.txt != [] then NewPart else part;
            var next := part1.(style := ApplyTokens(part1.style, Split(s[i + 2..k])));
            if part.txt != [] {
              ScanAcc(s, k + 1, next, acc + [part]);
              ScanAcc(s, k + 1, next, [part]);
              if Scan(s, k + 1, next, []).Some? {
                assert acc + [part] + Scan(s, k + 1, next, []).value == acc + ([part] + Scan(s, k + 1, next, []).value);
              }
            } else {
              ScanAcc(s, k + 1, next, acc);
            }
          }
        }
      } else if s[i] == '\n' {
        ScanAcc(s, i + 1, part.(newline := true), acc);
      } else {
        ScanAcc(s, i + 1, part.(txt := part.txt + [s[i]]), acc);
      }
    } else {
      assert [] + [part] == [part];
    }
  }

  /**
    Flags already set on the pending run reach exactly one run: the one being filled. Every
    run after it starts from NORMAL again, and panics are unaffected.
  */
  lemma {:induction false} ScanOr(s: string, i: nat, part: TextPart, acc: seq<TextPart>, st: Style)
    requires i <= |s|
    ensures var a := Scan(s, i, part, acc);
      var b := Scan(s, i, part.(style := Or(st, part.style)), acc);
      (a.Some? <==> b.Some?) &&
      (a.Some? ==> |a.value| > |acc| && b.value == a.value[|acc| := a.value[|acc|].(style := Or(st, a.value[|acc|].style))])
    decreases |s| - i
  {
    var part' := part.(style := Or(st, part.style));
    if i < |s| {
      if s[i] == '^' {
        if i + 1 < |s| {
          if s[i + 1] != '(' {
            ScanOr(s, i + 1, part, acc, st);
          } else if Close(s, i + 2).Some? {
            var k := Close(s, i + 2).value;
            var tokens := Split(s[i + 2..k]);
            if part.txt != [] {
              var next := NewPart.(style := ApplyTokens(Normal, tokens));
              ScanAcc(s, k + 1, next, acc + [part]);
              ScanAcc(s, k + 1, next, acc + [part']);
            } else {
              var next := part.(style := ApplyTokens(part.style, tokens));
              ApplyTokensOr(st, part.style, tokens);
              assert part'.(style := ApplyTokens(part'.style, tokens)) == next.(style := Or(st, next.style));
              ScanOr(s, k + 1, next, acc, st);
            }
          }
        }
      } else if s[i] == '\n' {
        assert part'.(newline := true) == part.(newline := true).(style := Or(st, part.style));
        ScanOr(s, i + 1, part.(newline := true), acc, st);
      } else {
        assert part'.(txt := part'.txt + [s[i]]) == part.(txt := part.txt + [s[i]]).(style := Or(st, part.style));
        ScanOr(s, i + 1, part.(txt := part.txt + [s[i]]), acc, st);
      }
    }
  }

  /** Searching for `)` after a prefix finds the same `)`, shifted by the prefix length. */
  lemma {:induction false} CloseShift(p: string, t: string, j: nat)
    requires j <= |t|
    ensures Close(p + t, |p| + j) == if Close(t, j).Some? then Some(Close(t, j).value + |p|) else None
    decreases |t| - j
  {
    if j < |t| {
      assert (p + t)[|p| + j] == t[j];
      CloseShift(p, t, j + 1);
    }
  }

  /** What the scanner has already passed does not influence what it does next. */
  lemma {:induction false} ScanShift(p: string, t: string, j: nat, part: TextPart, acc: seq<TextPart>)
    requires j <= |t|
    ensures Scan(p + t, |p| + j, part, acc) == Scan(t, j, part, acc)
    decreases |t| - j, 1
  {
    var s := p + t;
    if j < |t| {
      assert s[|p| + j] == t[j];
      if t[j] == '^' {
        if j + 1 < |t| {
          assert s[|p| + j + 1] == t[j + 1];
          if t[j + 1] != '(' {
            ScanShift(p, t, j + 1, part, acc);
          } else {
            DirectiveShift(p, t, j, part, acc);
          }
        }
      } else if t[j] == '\n' {
        ScanShift(p, t, j + 1, part.(newline := true), acc);
      } else {
        ScanShift(p, t, j + 1, part.(txt := part.txt + [t[j]]), acc);
      }
    }
  }

  /** The directive case of `ScanShift`: a directive opening at `j`. */
  lemma {:induction false} DirectiveShift(p: string, t: string, j: nat, part: TextPart, acc: seq<TextPart>)
    requires j + 1 < |t| && t[j] == '^' && t[j + 1] == '('
    ensures Scan(p + t, |p| + j, part, acc) == Scan(t, j, part, acc)
    decreases |t| - j, 0
  {
    var s := p + t;
    assert s[|p| + j] == t[j] && s[|p| + j + 1] == t[j + 1];
    CloseShift(p, t, j + 2);
    if Close(t, j + 2).Some? {
      var k := Close(t, j + 2).value;
      assert s[|p| + j + 2..k + |p|] == t[j + 2..k];
      var part1 := if part.txt != [] then NewPart else part;
      var acc1 := if part.txt != [] then acc + [part] else acc;
      ScanShift(p, t, k + 1, part1.(style := ApplyTokens(part1.style, Split(t[j + 2..k]))), acc1);
    }
  }

  /** A concatenation is ASCII exactly when both halves are. */
  lemma AsciiConcat(a: string, b: string)
    ensures AllAscii(a + b) <==> AllAscii(a) && AllAscii(b)
  {
    if AllAscii(a + b) {
      forall m | 0 <= m < |a| ensures IsAscii(a[m]) { assert a[m] == (a + b)[m]; }
      forall m | 0 <= m < |b| ensures IsAscii(b[m]) { assert b[m] == (a + b)[m + |a|]; }
    }
  }

  /** A leading directive without a `)` in its body closes right after the body. */
  lemma DirectiveCloses(b: string, t: string)
    requires ')' !in b
    ensures var s := "^(" + b + ")" + t;
      s[0] == '^' && s[1] == '(' && Close(s, 2) == Some(2 + |b|) && s[2..2 + |b|] == b
  {
    var s := "^(" + b + ")" + t;
    assert s[2 + |b|] == ')';
    forall m | 2 <= m < 2 + |b| ensures s[m] != ')' {
      assert s[m] == b[m - 2];
    }
    assert s[2..2 + |b|] == b;
  }

  /**
    A directive at the start ORs its flags into the first run of the rest and into no other
    run; the rest is split into runs exactly as it would be on its own.
  */
  lemma LeadingDirective(b: string, t: string)
    requires ')' !in b && AllAscii(b)
    ensures Parse("^(" + b + ")" + t).Some? <==> Parse(t).Some?
    ensures Parse(t).Some? ==>
      var r := Parse(t).value;
      var st := ApplyTokens(Normal, Split(b));
      |r| > 0 && Parse("^(" + b + ")" + t).value == r[0 := r[0].(style := Or(st, r[0].style))]
  {
    var p := "^(" + b + ")";
    var s := p + t;
    AsciiConcat("^(", b);
    AsciiConcat("^(" + b, ")");
    AsciiConcat(p, t);
    if AllAscii(t) {
      var st := ApplyTokens(Normal, Split(b));
      DirectiveCloses(b, t);
      assert Parse(s) == Scan(s, |p|, NewPart.(style := st), []);
      assert NewPart.(style := st) == NewPart.(style := Or(st, NewPart.style));
      ScanOr(s, |p|, NewPart, [], st);
      ScanShift(p, t, 0, NewPart, []);
    }
  }

  // ----- The text object -----

  /** A 2D text: its runs. The TTF font handle is not part of this model. */
  class Text {
    var txt: seq<TextPart>

    /** `Text::new` */
    constructor ()
      ensures txt == []
    {
      txt := [];
    }

    /** `Text::setString`: replaces the stored runs with those of `s`. */
    method SetString(s: string)
      requires Parse(s).Some?
      modifies this
      ensures txt == Parse(s).value
    {
      txt := [];
      var part := NewPart;
      var index := 0;
      while index < |s|
        invariant index <= |s|
        invariant Scan(s, index, part, txt) == Parse(s)
        decreases |s| - index
      {
        ghost var i0, part0, acc0 := index, part, txt;
        var c := s[index];
        if c == '^' {
          index := index + 1;
          if s[index] != '(' { continue; }
          if part.txt != [] {
            txt := txt + [part];
            part := NewPart;
          }
          index := index + 1;
          var raw;
          raw, index := ReadDirective(s, index);
          part := Restyle(part, Split(raw));
          assert Scan(s, i0, part0, acc0) == Scan(s, index + 1, part, txt);
        } else if c == '\n' {
          part := part.(newline := true);
        } else {
          part := part.(txt := part.txt + [c]);
        }
        index := index + 1;
      }
      txt := txt + [part];
    }
  }

  /** The inner loop of `setString` that collects a directive's body up to its `)`. */
  method ReadDirective(s: string, start: nat) returns (raw: string, close: nat)
    requires start <= |s| && Close(s, start).Some?
    ensures Close(s, start) == Some(close) && raw == s[start..close]
  {
    ghost var end := Close(s, start).value;
    close := start;
    raw := "";
    var c := s[close];
    while c != ')'
      invariant start <= close <= end && c == s[close]
      invariant raw == s[start..close]
      decreases end - close
    {
      raw := raw + [c];
      close := close + 1;
      c := s[close];
    }
  }

  /** The token loop of `setString`: each recognised token switches one flag of the pending run. */
  method Restyle(part: TextPart, tokens: seq<string>) returns (r: TextPart)
    ensures r == part.(style := ApplyTokens(part.style, tokens))
  {
    r := part;
    for j := 0 to |tokens|
      invariant r == part.(style := ApplyTokens(part.style, tokens[..j]))
    {
      assert tokens[..j + 1][..j] == tokens[..j];
      if tokens[j] == "*" { r := r.(style := r.style.(bold := true)); }
      if tokens[j] == "/" { r := r.(style := r.style.(italic := true)); }
      if tokens[j] == "_" { r := r.(style := r.style.(underline := true)); }
      if tokens[j] == "-" { r := r.(style := r.style.(strikethrough := true)); }
    }
    assert tokens[..|tokens|] == tokens;
  }
}
