/** strings.TrimSpace on bytes against unicode.IsSpace on runes: on UTF-8 text the
    two trims are one. */
module Runes {
  import opened Text
  import opened Members

  function Byte(n: nat): char
    requires n < 256
  {
    n as char
  }

  /** The UTF-8 encoding of one rune. */
  function Utf8(r: char): (s: string)
    ensures 1 <= |s| <= 4
  {
    var n := r as int;
    if n < 0x80 then [Byte(n)]
    else if n < 0x800 then [Byte(0xC0 + n / 64), Byte(0x80 + n % 64)]
    else if n < 0x1_0000 then [Byte(0xE0 + n / 4096), Byte(0x80 + n / 64 % 64), Byte(0x80 + n % 64)]
    else [Byte(0xF0 + n / 262144), Byte(0x80 + n / 4096 % 64), Byte(0x80 + n / 64 % 64), Byte(0x80 + n % 64)]
  }

  function Encoded(rs: string): string {
    if rs == "" then "" else Utf8(rs[0]) + Encoded(rs[1..])
  }

  // ---------- the tables agree ----------

  /** The byte table is the encoding of the rune table, read from the front. */
  lemma LeadSpaceIff(r: char, rest: string)
    ensures LeadSpace(Utf8(r) + rest) == if IsSpace(r) then |Utf8(r)| else 0
  {
    if r as int < 0x800 {
      LeadShort(r, rest);
    } else {
      LeadLong(r, rest);
    }
  }

  lemma LeadShort(r: char, rest: string)
    requires r as int < 0x800
    ensures LeadSpace(Utf8(r) + rest) == if IsSpace(r) then |Utf8(r)| else 0
  {
    var s, u := Utf8(r) + rest, Utf8(r);
    assert forall i :: 0 <= i < |u| ==> s[i] == u[i];
  }

  lemma LeadLong(r: char, rest: string)
    requires r as int >= 0x800
    ensures LeadSpace(Utf8(r) + rest) == if IsSpace(r) then |Utf8(r)| else 0
  {
    var s, u := Utf8(r) + rest, Utf8(r);
    assert forall i :: 0 <= i < |u| ==> s[i] == u[i];
  }

  /** And from the back. */
  lemma TailSpaceIff(before: string, r: char)
    ensures TailSpace(before + Utf8(r)) == if IsSpace(r) then |Utf8(r)| else 0
  {
    if r as int < 0x800 {
      TailShort(before, r);
    } else {
      TailLong(before, r);
    }
  }

  lemma TailShort(before: string, r: char)
    requires r as int < 0x800
    ensures TailSpace(before + Utf8(r)) == if IsSpace(r) then |Utf8(r)| else 0
  {
    var s, u := before + Utf8(r), Utf8(r);
    assert forall i :: 0 <= i < |u| ==> s[|s| - |u| + i] == u[i];
  }

  lemma TailLong(before: string, r: char)
    requires r as int >= 0x800
    ensures TailSpace(before + Utf8(r)) == if IsSpace(r) then |Utf8(r)| else 0
  {
    var s, u := before + Utf8(r), Utf8(r);
    assert forall i :: 0 <= i < |u| ==> s[|s| - |u| + i] == u[i];
  }

  // ---------- trimming ----------

  function TrimFront(rs: string): string {
    if rs != "" && IsSpace(rs[0]) then TrimFront(rs[1..]) else rs
  }

  function TrimBack(rs: string): string {
    if rs != "" && IsSpace(rs[|rs| - 1]) then TrimBack(rs[..|rs| - 1]) else rs
  }

  lemma {:induction false} TrimRunesIs(rs: string)
    ensures TrimRunes(rs) == TrimBack(TrimFront(rs))
    decreases |rs|
  {
    if rs != "" && IsSpace(rs[0]) {
      TrimRunesIs(rs[1..]);
    } else if rs != "" && IsSpace(rs[|rs| - 1]) {
      var init := rs[..|rs| - 1];
      TrimRunesIs(init);
      assert init != "" ==> init[0] == rs[0];
    }
  }

  lemma {:induction false} TrimLeftEncoded(rs: string)
    ensures TrimLeft(Encoded(rs)) == Encoded(TrimFront(rs))
  {
    if rs != "" {
      var u, rest := Utf8(rs[0]), Encoded(rs[1..]);
      LeadSpaceIff(rs[0], rest);
      if IsSpace(rs[0]) {
        assert (u + rest)[|u|..] == rest;
        TrimLeftEncoded(rs[1..]);
      }
    }
  }

  lemma Regroup(a: string, b: string, c: string)
    ensures a + (b + c) == a + b + c
  {
  }

  lemma {:induction false} EncodedSnoc(rs: string, r: char)
    ensures Encoded(rs + [r]) == Encoded(rs) + Utf8(r)
  {
    if rs == "" {
      assert rs + [r] == [r] && [r][1..] == "";
      assert Utf8(r) + "" == "" + Utf8(r);
    } else {
      EncodedSnoc(rs[1..], r);
      assert (rs + [r])[1..] == rs[1..] + [r];
      Regroup(Utf8(rs[0]), Encoded(rs[1..]), Utf8(r));
    }
  }

  lemma {:induction false} TrimRightEncoded(rs: string)
    ensures TrimRight(Encoded(rs)) == Encoded(TrimBack(rs))
    decreases |rs|
  {
    if rs != "" {
      var init, r := rs[..|rs| - 1], rs[|rs| - 1];
      assert rs == init + [r];
      EncodedSnoc(init, r);
      TailSpaceIff(Encoded(init), r);
      if IsSpace(r) {
        var s := Encoded(init) + Utf8(r);
        assert s[..|s| - |Utf8(r)|] == Encoded(init);
        TrimRightEncoded(init);
      }
    }
  }

  /** On every text of runes, trimming the bytes is trimming the runes. */
  lemma TrimSpaceOfRunes(rs: string)
    ensures TrimSpace(Encoded(rs)) == Encoded(TrimRunes(rs))
  {
    TrimLeftEncoded(rs);
    TrimRightEncoded(TrimFront(rs));
    TrimRunesIs(rs);
  }

  // ---------- padding ----------

  predicate Blanks(s: string) {
    forall i :: 0 <= i < |s| ==> Space1(s[i])
  }

  lemma {:induction false} TrimLeftTo(t: string, k: nat)
    requires k < |t| && Solid(t[k]) && forall i :: 0 <= i < k ==> Space1(t[i])
    ensures TrimLeft(t) == t[k..]
    decreases k
  {
    if k == 0 {
      TrimLeftSolid(t);
    } else {
      assert Space1(t[0]);
      assert LeadSpace(t) == 1;
      TrimLeftTo(t[1..], k - 1);
    }
  }

  lemma {:induction false} TrimRightBlanks(s: string, b: string)
    requires Blanks(b) && (s == "" || Solid(s[|s| - 1]))
    ensures TrimRight(s + b) == s
    decreases |b|
  {
    var t := s + b;
    if b == "" {
      assert t == s;
      if s != "" {
        TrimRightKeeps(s, |s|);
      }
    } else {
      assert t[|t| - 1] == b[|b| - 1] && t[..|t| - 1] == s + b[..|b| - 1];
      TrimRightBlanks(s, b[..|b| - 1]);
    }
  }

  /** ASCII blanks around solid text are what is trimmed. */
  lemma TrimBlanks(a: string, s: string, b: string)
    requires Blanks(a) && Blanks(b) && s != "" && Solid(s[0]) && Solid(s[|s| - 1])
    ensures TrimSpace(a + s + b) == s
  {
    var t := a + s + b;
    assert t[|a|..] == s + b && t[|a|] == s[0];
    assert forall i :: 0 <= i < |a| ==> t[i] == a[i];
    TrimLeftTo(t, |a|);
    TrimRightBlanks(s, b);
  }

  lemma TrimAfter(s: string, b: string)
    requires Blanks(b) && s != "" && Solid(s[0]) && Solid(s[|s| - 1])
    ensures TrimSpace(s + b) == s
  {
    assert (s + b)[0] == s[0];
    TrimLeftSolid(s + b);
    TrimRightBlanks(s, b);
  }
}
