/** Quoting one seed value (proto/seed.go) against the shell that sources it.

    `Word` is the reference: how a POSIX shell reads the right-hand side of an
    assignment, from sections 2.2.1 to 2.2.3 (quoting), 2.3 (token recognition)
    and 2.6.1 (tilde expansion) of the POSIX Shell Command Language. */
module Quoting {
  import opened Text

  // ---------- the shell ----------

  function Prepend(p: string, r: Option<string>): Option<string> {
    if r.None? then None else Some(p + r.value)
  }

  lemma PrependTwice(a: string, b: string, r: Option<string>)
    ensures Prepend("", r) == r
    ensures Prepend(a, Prepend(b, r)) == Prepend(a + b, r)
  {
    if r.Some? {
      assert "" + r.value == r.value;
      assert a + (b + r.value) == a + b + r.value;
    }
  }

  /** An unquoted operator or blank, which ends a word. */
  predicate Ends(c: char) {
    || c == ' ' || c == '\t' || c == '\n' || c == '|' || c == '&' || c == ';'
    || c == '<' || c == '>' || c == '(' || c == ')'
  }

  /** A character that starts an expansion, quoted by `"` or not. */
  predicate Expands(c: char) {
    c == '$' || c == '`'
  }

  /** The value of `s` when all of it is one word that needs no expansion. `mark`
      says that a tilde here would be expanded. */
  function Word(s: string, mark: bool): Option<string>
    decreases |s|
  {
    if s == "" then Some("")
    else if s[0] == '\'' then
      var i := IndexOf(s[1..], '\'');
      if i == |s| - 1 then None else Prepend(s[1..1 + i], Word(s[i + 2..], false))
    else if s[0] == '"' then DoubleQuoted(s[1..])
    else if s[0] == '\\' then
      if |s| == 1 then None
      else if s[1] == '\n' then Word(s[2..], mark)
      else Prepend([s[1]], Word(s[2..], false))
    else if Ends(s[0]) || Expands(s[0]) || (s[0] == '~' && mark) then None
    else Prepend([s[0]], Word(s[1..], s[0] == ':'))
  }

  /** The rest of a word from inside double quotes. */
  function DoubleQuoted(s: string): Option<string>
    decreases |s|
  {
    if s == "" then None
    else if s[0] == '"' then Word(s[1..], false)
    else if Expands(s[0]) then None
    else if s[0] == '\\' && |s| > 1 && (Expands(s[1]) || s[1] == '"' || s[1] == '\\') then
      Prepend([s[1]], DoubleQuoted(s[2..]))
    else if s[0] == '\\' && |s| > 1 && s[1] == '\n' then DoubleQuoted(s[2..])
    else Prepend([s[0]], DoubleQuoted(s[1..]))
  }

  /** How the shell reads the value of an assignment. */
  function ShellValue(s: string): Option<string> {
    Word(s, true)
  }

  // ---------- the renderer's quoting ----------

  predicate Writable(v: string) {
    '\n' !in v && '\r' !in v && '\0' !in v
  }

  /** strings.ReplaceAll of a single quote by quote, backslash, quote, quote. */
  function Escape(v: string): (e: string) {
    if v == "" then ""
    else if v[0] == '\'' then "'\\''" + Escape(v[1..])
    else [v[0]] + Escape(v[1..])
  }

  function Quoted(v: string): string {
    "'" + Escape(v) + "'"
  }

  function ShellQuote(v: string): Option<string> {
    if Writable(v) then Some(Quoted(v)) else None
  }

  // ---------- the parser's unquoting ----------

  /** The text between single quotes: segments joined by the renderer's idiom. */
  function Single(body: string): (r: Option<string>)
    decreases |body|
  {
    var i := IndexOf(body, '\'');
    if i == |body| then Some(body)
    else if "'\\''" <= body[i..] then Prepend(body[..i] + "'", Single(body[i + 4..]))
    else None
  }

  /** The text between double quotes, with the four escapes the shell honours. */
  function Double(body: string): Option<string>
    decreases |body|
  {
    if body == "" then Some("")
    else if body[0] == '\\' then
      if |body| > 1 && (body[1] == '"' || body[1] == '\\' || Expands(body[1])) then
        Prepend([body[1]], Double(body[2..]))
      else None
    else if Expands(body[0]) || body[0] == '"' then None
    else Prepend([body[0]], Double(body[1..]))
  }

  predicate Bare(c: char) {
    !Expands(c) && c != '\\' && c != '"' && c != '\''
  }

  /** `v` opens with the quote `q` and closes with another one. */
  predicate Enclosed(v: string, q: char) {
    |v| >= 2 && v[0] == q && v[|v| - 1] == q
  }

  function UnquoteTrimmed(v: string): Option<string> {
    if v == "" then Some("")
    else if v[0] == '\'' then if Enclosed(v, '\'') then Single(v[1..|v| - 1]) else None
    else if v[0] == '"' then if Enclosed(v, '"') then Double(v[1..|v| - 1]) else None
    else if forall i :: 0 <= i < |v| ==> Bare(v[i]) then Some(v) else None
  }

  function Unquoting(v: string): Option<string> {
    UnquoteTrimmed(TrimSpace(v))
  }

  method UnquoteSingle(text: string) returns (r: Option<string>)
    ensures r == Single(text)
  {
    var body, out := text, "";
    PrependTwice("", "", Single(text));
    while body != ""
      invariant Single(text) == Prepend(out, Single(body))
      decreases |body|
    {
      var i := IndexOf(body, '\'');
      PrependTwice(out, body[..i] + "'", if i + 4 <= |body| then Single(body[i + 4..]) else None);
      if i == |body| {
        return Some(out + body);
      }
      assert out + body[..i] + "'" == out + (body[..i] + "'");
      out := out + body[..i];
      var rest := body[i..];
      if !("'\\''" <= rest) {
        return None;
      }
      out := out + "'";
      assert body[i + 4..] == rest[4..];
      body := rest[4..];
    }
    assert out + "" == out;
    r := Some(out);
  }

  method UnquoteDouble(body: string) returns (r: Option<string>)
    ensures r == Double(body)
  {
    var i, out := 0, "";
    PrependTwice("", "", Double(body));
    assert body[0..] == body;
    while i < |body|
      invariant 0 <= i <= |body|
      invariant Double(body) == Prepend(out, Double(body[i..]))
      decreases |body| - i
    {
      var c, rest := body[i], body[i..];
      assert rest[1..] == body[i + 1..];
      if c == '\\' {
        if i + 1 >= |body| {
          return None;
        }
        assert rest[2..] == body[i + 2..];
        i := i + 1;
        PrependTwice(out, [body[i]], Double(rest[2..]));
        if body[i] == '"' || body[i] == '\\' || Expands(body[i]) {
          out := out + [body[i]];
        } else {
          return None;
        }
      } else if Expands(c) || c == '"' {
        return None;
      } else {
        PrependTwice(out, [c], Double(rest[1..]));
        out := out + [c];
      }
      i := i + 1;
    }
    assert body[i..] == "" && out + "" == out;
    r := Some(out);
  }

  method Unquote(text: string) returns (r: Option<string>)
    ensures r == Unquoting(text)
  {
    r := UnquoteForm(TrimSpace(text));
  }

  method UnquoteForm(v: string) returns (r: Option<string>)
    ensures r == UnquoteTrimmed(v)
  {
    if v == "" {
      return Some("");
    }
    if v[0] == '\'' || v[0] == '"' {
      if v[|v| - 1] != v[0] || |v| < 2 {
        return None;
      }
      if v[0] == '\'' {
        r := UnquoteSingle(v[1..|v| - 1]);
      } else {
        r := UnquoteDouble(v[1..|v| - 1]);
      }
      return;
    }
    for i := 0 to |v|
      invariant forall k :: 0 <= k < i ==> Bare(v[k])
    {
      if !Bare(v[i]) {
        return None;
      }
    }
    r := Some(v);
  }

  // ---------- unquote undoes shellQuote, and the other way round ----------

  lemma {:induction false} EscapeConcat(a: string, b: string)
    ensures Escape(a + b) == Escape(a) + Escape(b)
  {
    if a != "" {
      EscapeConcat(a[1..], b);
      assert (a + b)[1..] == a[1..] + b;
    } else {
      assert a + b == b;
    }
  }

  lemma {:induction false} EscapePlain(a: string)
    requires '\'' !in a
    ensures Escape(a) == a
  {
    if a != "" {
      EscapePlain(a[1..]);
    }
  }

  lemma EscapeSegment(a: string, rest: string)
    requires '\'' !in a
    ensures Escape(a + "'" + rest) == a + "'\\''" + Escape(rest)
  {
    var tail := "'" + rest;
    assert a + "'" + rest == a + tail;
    EscapeConcat(a, tail);
    EscapePlain(a);
    assert tail[1..] == rest;
  }

  lemma SingleSegment(a: string, rest: string)
    requires '\'' !in a
    ensures Single(a + "'\\''" + rest) == Prepend(a + "'", Single(rest))
  {
    var e := a + "'\\''" + rest;
    assert e[..|a|] == a && e[|a|] == '\'';
    IndexOfUnique(e, '\'', |a|);
    assert e[|a|..] == "'\\''" + rest;
    assert e[|a| + 4..] == rest;
  }

  lemma {:induction false} SingleOfEscape(v: string)
    ensures Single(Escape(v)) == Some(v)
    decreases |v|
  {
    var i := IndexOf(v, '\'');
    if i == |v| {
      assert v[..i] == v;
      EscapePlain(v);
    } else {
      var a, rest := v[..i], v[i + 1..];
      assert v == a + "'" + rest;
      EscapeSegment(a, rest);
      SingleOfEscape(rest);
      SingleSegment(a, Escape(rest));
    }
  }

  lemma SegmentOf(body: string, i: nat)
    requires i <= |body| && "'\\''" <= body[i..]
    ensures body == body[..i] + "'\\''" + body[i + 4..]
  {
    var tail := body[i..];
    assert tail[..4] == "'\\''" && tail[4..] == body[i + 4..];
    assert body == body[..i] + tail && tail == tail[..4] + tail[4..];
  }

  /** What single quotes accept is exactly what the renderer writes. */
  lemma {:induction false} EscapeOfSingle(body: string)
    requires Single(body).Some?
    ensures Escape(Single(body).value) == body
    decreases |body|
  {
    var i := IndexOf(body, '\'');
    if i == |body| {
      assert body[..i] == body;
      EscapePlain(body);
    } else {
      var a, rest := body[..i], body[i + 4..];
      EscapeOfSingle(rest);
      EscapeSegment(a, Single(rest).value);
      SegmentOf(body, i);
    }
  }

  /** unquote is a left inverse of shellQuote, for every byte content. */
  lemma UnquoteOfQuoted(v: string)
    ensures Unquoting(Quoted(v)) == Some(v)
  {
    var q := Quoted(v);
    TrimSolid(q);
    assert q[1..|q| - 1] == Escape(v);
    SingleOfEscape(v);
  }

  /** Accepted single-quoted text re-quotes to itself, exactly when it has no
      newline, carriage return or NUL. */
  lemma RequoteIff(text: string)
    requires text != "" && text[0] == '\'' && UnquoteTrimmed(text).Some?
    ensures Quoted(UnquoteTrimmed(text).value) == text
    ensures ShellQuote(UnquoteTrimmed(text).value) == Some(text) <==>
            !exists i :: 0 <= i < |text| && (text[i] == '\n' || text[i] == '\r' || text[i] == '\0')
  {
    var body := text[1..|text| - 1];
    EscapeOfSingle(body);
    var v := Single(body).value;
    Unwrap(text, '\'');
    EscapeWritable(v);
    QuotesWritable(body);
  }

  lemma Unwrap(text: string, q: char)
    requires Enclosed(text, q)
    ensures text == [q] + text[1..|text| - 1] + [q]
  {
  }

  lemma QuotesWritable(body: string)
    ensures Writable("'" + body + "'") <==> Writable(body)
  {
  }

  lemma {:induction false} EscapeWritable(v: string)
    ensures Writable(Escape(v)) <==> Writable(v)
  {
    if v != "" {
      EscapeWritable(v[1..]);
      assert v == [v[0]] + v[1..];
      if v[0] == '\'' {
        assert Writable("'\\''");
      }
    }
  }

  // ---------- agreement with the shell ----------

  lemma WordSegment(a: string, tail: string, mark: bool)
    requires '\'' !in a
    ensures Word("'" + a + "'" + tail, mark) == Prepend(a, Word(tail, false))
  {
    var s := "'" + a + "'" + tail;
    assert s[1..][..|a|] == a;
    IndexOfUnique(s[1..], '\'', |a|);
    assert s[1..1 + |a|] == a && s[|a| + 2..] == tail;
  }

  lemma WordEscaped(tail: string)
    ensures Word("\\'" + tail, false) == Prepend("'", Word(tail, false))
  {
    assert ("\\'" + tail)[2..] == tail;
  }

  lemma QuoteSegment(a: string, rest: string)
    ensures "'" + (a + "'\\''" + rest) + "'" == "'" + a + "'" + ("\\'" + ("'" + rest + "'"))
  {
  }

  lemma {:induction false} SingleAgrees(body: string, mark: bool)
    requires Single(body).Some?
    ensures Word("'" + body + "'", mark) == Single(body)
    decreases |body|
  {
    var i := IndexOf(body, '\'');
    var a := body[..i];
    if i == |body| {
      assert a == body;
      WordSegment(a, "", mark);
      assert "'" + body + "'" == "'" + a + "'" + "";
      assert a + "" == a;
    } else {
      var rest := body[i + 4..];
      var quoted := "'" + rest + "'";
      SegmentOf(body, i);
      QuoteSegment(a, rest);
      SingleAgrees(rest, false);
      WordSegment(a, "\\'" + quoted, mark);
      WordEscaped(quoted);
      PrependTwice(a, "'", Single(rest));
    }
  }

  lemma {:induction false} DoubleAgrees(body: string)
    requires Double(body).Some?
    ensures DoubleQuoted(body + "\"") == Double(body)
    decreases |body|
  {
    var s := body + "\"";
    if body == "" {
      assert s[1..] == "";
    } else if body[0] == '\\' {
      assert s[2..] == body[2..] + "\"";
      DoubleAgrees(body[2..]);
    } else {
      assert s[1..] == body[1..] + "\"";
      DoubleAgrees(body[1..]);
    }
  }

  /** Whenever unquote accepts quoted text, the shell reads that text as one word
      with the same value. */
  lemma QuotedAgreesWithShell(text: string)
    requires UnquoteTrimmed(text).Some? && text != "" && (text[0] == '\'' || text[0] == '"')
    ensures ShellValue(text) == UnquoteTrimmed(text)
  {
    var body := text[1..|text| - 1];
    if text[0] == '\'' {
      Unwrap(text, '\'');
      SingleAgrees(body, true);
    } else {
      Unwrap(text, '"');
      assert text[1..] == body + "\"";
      DoubleAgrees(body);
    }
  }

  /** Whatever the renderer writes, the shell reads back byte for byte. */
  lemma ShellReadsQuoted(v: string)
    ensures ShellValue(Quoted(v)) == Some(v)
  {
    var q := Quoted(v);
    assert q[1..|q| - 1] == Escape(v);
    SingleOfEscape(v);
    QuotedAgreesWithShell(q);
  }

  // ---------- unquoted values ----------

  /** No blank or operator, and no tilde where the shell would expand one. */
  ghost predicate ReadsLiterally(s: string, mark: bool) {
    forall i :: 0 <= i < |s| ==> LiteralAt(s, i, mark)
  }

  predicate LiteralAt(s: string, i: nat, mark: bool)
    requires i < |s|
  {
    !Ends(s[i]) && (s[i] == '~' ==> if i == 0 then !mark else s[i - 1] != ':')
  }

  lemma LiteralTail(s: string, mark: bool)
    requires s != ""
    ensures ReadsLiterally(s, mark) <==> !Ends(s[0]) && !(s[0] == '~' && mark) && ReadsLiterally(s[1..], s[0] == ':')
  {
    var t, colon := s[1..], s[0] == ':';
    assert LiteralAt(s, 0, mark) <==> !Ends(s[0]) && !(s[0] == '~' && mark);
    forall i | 0 <= i < |t| ensures LiteralAt(t, i, colon) <==> LiteralAt(s, i + 1, mark) {
      assert t[i] == s[i + 1];
    }
    if LiteralAt(s, 0, mark) && ReadsLiterally(t, colon) {
      forall i | 0 < i < |s| ensures LiteralAt(s, i, mark) {
        assert LiteralAt(t, i - 1, colon);
      }
    }
  }

  lemma {:induction false} BareWord(s: string, mark: bool)
    requires forall i :: 0 <= i < |s| ==> Bare(s[i])
    ensures Word(s, mark) == if ReadsLiterally(s, mark) then Some(s) else None
    decreases |s|
  {
    if s != "" {
      BareWord(s[1..], s[0] == ':');
      LiteralTail(s, mark);
      assert s == [s[0]] + s[1..];
      assert Bare(s[0]);
    }
  }

  /** An accepted unquoted value means to the shell what it means to the parser
      exactly when it has no blank, operator or expandable tilde; otherwise the
      shell does not read it as one literal word. */
  lemma UnquotedAgreesIff(text: string)
    requires UnquoteTrimmed(text).Some? && text != "" && text[0] != '\'' && text[0] != '"'
    ensures ShellValue(text) == UnquoteTrimmed(text) <==> ReadsLiterally(text, true)
  {
    BareWord(text, true);
  }

  /** The value `a;b` is accepted, and the shell would run the second half. */
  lemma UnquotedDisagrees()
    ensures UnquoteTrimmed("a;b") == Some("a;b") && ShellValue("a;b") == None
  {
    assert Ends("a;b"[1]);
    UnquotedAgreesIff("a;b");
    BareWord("a;b", true);
  }
}
