/** The grammar of seed values (proto/seed.go): exactly which texts unquote accepts
    and what each means. */
module Grammar {
  import opened Text
  import opened Quoting

  // ---------- double quotes ----------

  /** One character between double quotes, as it is or after a backslash. */
  datatype Unit = Literal(c: char) | Escaped(c: char)

  predicate Special(c: char) {
    c == '"' || c == '\\' || c == '$' || c == '`'
  }

  predicate ValidUnits(us: seq<Unit>) {
    forall i :: 0 <= i < |us| ==> (us[i].Escaped? <==> Special(us[i].c))
  }

  function UnitText(u: Unit): string {
    if u.Escaped? then ['\\', u.c] else [u.c]
  }

  function UnitsText(us: seq<Unit>): string {
    if us == [] then "" else UnitText(us[0]) + UnitsText(us[1..])
  }

  function UnitsValue(us: seq<Unit>): string {
    if us == [] then "" else [us[0].c] + UnitsValue(us[1..])
  }

  lemma {:induction false} DoubleOfUnits(us: seq<Unit>)
    requires ValidUnits(us)
    ensures Double(UnitsText(us)) == Some(UnitsValue(us))
  {
    if us != [] {
      var text, rest := UnitsText(us), UnitsText(us[1..]);
      DoubleOfUnits(us[1..]);
      if us[0].Escaped? {
        assert text[0] == '\\' && text[1] == us[0].c && text[2..] == rest;
      } else {
        assert text[0] == us[0].c && text[1..] == rest;
      }
    }
  }

  lemma {:induction false} UnitsOfDouble(body: string) returns (us: seq<Unit>)
    requires Double(body).Some?
    ensures ValidUnits(us) && UnitsText(us) == body && UnitsValue(us) == Double(body).value
    decreases |body|
  {
    if body == "" {
      us := [];
    } else {
      var n := if body[0] == '\\' then 2 else 1;
      var u := if n == 2 then Escaped(body[1]) else Literal(body[0]);
      var rest := UnitsOfDouble(body[n..]);
      us := [u] + rest;
      assert us[1..] == rest && us[0] == u;
      assert UnitText(u) == body[..n];
      assert body == body[..n] + body[n..];
    }
  }

  /** `text` is double-quoted and means `v`. */
  ghost predicate DoubleMeans(text: string, v: string) {
    exists us :: ValidUnits(us) && UnitsValue(us) == v && text == ['"'] + UnitsText(us) + ['"']
  }

  lemma DoubleIff(text: string, v: string)
    requires text != "" && text[0] == '"'
    ensures UnquoteTrimmed(text) == Some(v) <==> DoubleMeans(text, v)
  {
    if UnquoteTrimmed(text) == Some(v) {
      Unwrap(text, '"');
      var us := UnitsOfDouble(text[1..|text| - 1]);
    }
    if us :| ValidUnits(us) && UnitsValue(us) == v && text == ['"'] + UnitsText(us) + ['"'] {
      assert text[1..|text| - 1] == UnitsText(us);
      DoubleOfUnits(us);
    }
  }

  // ---------- single quotes and none ----------

  lemma SingleIff(text: string, v: string)
    requires text != "" && text[0] == '\''
    ensures UnquoteTrimmed(text) == Some(v) <==> text == Quoted(v)
  {
    if UnquoteTrimmed(text) == Some(v) {
      RequoteIff(text);
    }
    if text == Quoted(v) {
      assert text[1..|text| - 1] == Escape(v);
      SingleOfEscape(v);
    }
  }

  /** None of the five characters a shell would not read literally. */
  predicate Unmarked(text: string) {
    '$' !in text && '`' !in text && '\\' !in text && '"' !in text && '\'' !in text
  }

  lemma BareIff(text: string, v: string)
    requires text != "" && text[0] != '\'' && text[0] != '"'
    ensures UnquoteTrimmed(text) == Some(v) <==> v == text && Unmarked(text)
  {
    if Unmarked(text) {
      assert forall i :: 0 <= i < |text| ==> Bare(text[i]);
    }
  }

  /** A trimmed value text is accepted, and means `v`, if and only if it is empty and
      `v` is, or it is what the renderer writes for `v`, or it is double-quoted
      and means `v`, or it is `v` itself and carries none of the five marks. */
  lemma UnquoteIff(text: string, v: string)
    ensures UnquoteTrimmed(text) == Some(v) <==>
            || (text == "" && v == "")
            || text == Quoted(v)
            || DoubleMeans(text, v)
            || (text != "" && v == text && Unmarked(text))
  {
    if text == "" {
      assert Quoted(v) != "";
    } else if text[0] == '\'' {
      SingleIff(text, v);
      assert text[0] in text;
    } else if text[0] == '"' {
      DoubleIff(text, v);
      assert text[0] in text && Quoted(v)[0] == '\'';
    } else {
      BareIff(text, v);
      assert Quoted(v)[0] == '\'';
    }
  }
}
