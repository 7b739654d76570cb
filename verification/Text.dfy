/** Byte strings the way the Go standard library handles them.

    A Go string is a sequence of bytes, so throughout the project a `string`
    holds one `char` per byte. */
module Text {

  datatype Option<+T> = None | Some(value: T)

  type Bytes = string

  function Min(a: int, b: int): int {
    if a <= b then a else b
  }

  // ---------- searching and splitting ----------

  /** The position of the first `c` in `s`, or `|s|` when there is none. */
  function IndexOf(s: string, c: char): (i: nat)
    ensures i <= |s|
    ensures i < |s| ==> s[i] == c
    ensures c !in s[..i]
  {
    if s == "" then 0
    else if s[0] == c then 0
    else
      var i := IndexOf(s[1..], c);
      assert s[..i + 1] == [s[0]] + s[1..][..i];
      i + 1
  }

  /** The split point is the only position whose left side has no `c`. */
  lemma IndexOfUnique(s: string, c: char, i: nat)
    requires i <= |s| && c !in s[..i]
    requires i < |s| ==> s[i] == c
    ensures IndexOf(s, c) == i
  {
  }

  /** strings.Split on a single-byte separator. */
  function Split(s: string, c: char): (parts: seq<string>)
    ensures parts != []
    decreases |s|
  {
    var i := IndexOf(s, c);
    if i == |s| then [s] else [s[..i]] + Split(s[i + 1..], c)
  }

  /** strings.Join with a single-byte separator. */
  function Join(parts: seq<string>, c: char): string {
    if parts == [] then ""
    else if |parts| == 1 then parts[0]
    else parts[0] + [c] + Join(parts[1..], c)
  }

  ghost predicate Without(parts: seq<string>, c: char) {
    forall i :: 0 <= i < |parts| ==> c !in parts[i]
  }

  lemma {:induction false} SplitParts(s: string, c: char)
    ensures Without(Split(s, c), c)
    ensures Join(Split(s, c), c) == s
    decreases |s|
  {
    var i := IndexOf(s, c);
    if i == |s| {
      assert s[..i] == s;
    } else {
      SplitParts(s[i + 1..], c);
      SplitAt(s, c);
      JoinCons(s[..i], Split(s[i + 1..], c), c);
    }
  }

  /** Cutting at the first separator, whatever follows it. */
  lemma CutAt(a: string, c: char, rest: string)
    requires c !in a
    ensures var s := a + [c] + rest; IndexOf(s, c) == |a| && s[..|a|] == a && s[|a| + 1..] == rest
  {
    var s := a + [c] + rest;
    assert s[..|a|] == a;
    IndexOfUnique(s, c, |a|);
  }

  lemma SplitHead(a: string, rest: string, c: char)
    requires c !in a
    ensures Split(a + [c] + rest, c) == [a] + Split(rest, c)
  {
    CutAt(a, c, rest);
  }

  lemma SplitWhole(a: string, c: char)
    requires c !in a
    ensures Split(a, c) == [a]
  {
    assert a[..|a|] == a;
    IndexOfUnique(a, c, |a|);
  }

  lemma {:induction false} SplitJoin(parts: seq<string>, c: char)
    requires parts != [] && Without(parts, c)
    ensures Split(Join(parts, c), c) == parts
  {
    if |parts| == 1 {
      SplitWhole(parts[0], c);
    } else {
      SplitJoin(parts[1..], c);
      SplitHead(parts[0], Join(parts[1..], c), c);
      assert parts == [parts[0]] + parts[1..];
    }
  }

  lemma JoinCons(a: string, parts: seq<string>, c: char)
    requires parts != []
    ensures Join([a] + parts, c) == a + [c] + Join(parts, c)
  {
    assert ([a] + parts)[1..] == parts;
  }

  lemma SplitAt(s: string, c: char)
    requires IndexOf(s, c) < |s|
    ensures var i := IndexOf(s, c); Split(s, c) == [s[..i]] + Split(s[i + 1..], c) && s == s[..i] + [c] + s[i + 1..]
  {
  }

  lemma Regrouped(a: string, c: char, rest: string, more: string)
    ensures a + [c] + rest + more == a + [c] + (rest + more)
  {
  }

  lemma RegroupedFront(a: string, x: string, c: char, rest: string)
    ensures a + (x + [c] + rest) == a + x + [c] + rest
  {
  }

  lemma ConsParts(h: string, q: seq<string>)
    ensures ([h] + q)[0] == h && ([h] + q)[1..] == q
  {
  }

  lemma RegroupedTwice(a: string, c: char, rest: string, t: string)
    ensures a + [c] + rest + [c] + t == a + [c] + (rest + [c] + t)
  {
  }

  lemma ConsConcat(h: string, q: seq<string>, r: seq<string>)
    ensures [h] + q + r == [h] + (q + r)
  {
  }

  lemma ConsLast(h: string, q: seq<string>, w: string)
    requires q != []
    ensures var p := [h] + q;
            p[..|p| - 1] + [p[|p| - 1] + w] == [h] + (q[..|q| - 1] + [q[|q| - 1] + w])
  {
  }

  lemma SplitAppendHead(a: string, rest: string, w: string, c: char)
    requires c !in a
    requires var q := Split(rest, c); Split(rest + w, c) == q[..|q| - 1] + [q[|q| - 1] + w]
    ensures var p := [a] + Split(rest, c); Split(a + [c] + rest + w, c) == p[..|p| - 1] + [p[|p| - 1] + w]
  {
    Regrouped(a, c, rest, w);
    SplitHead(a, rest + w, c);
    ConsLast(a, Split(rest, c), w);
  }

  /** Appending separator-free text changes only the last part. */
  lemma {:induction false} SplitAppend(s: string, w: string, c: char)
    requires c !in w
    ensures var p := Split(s, c); Split(s + w, c) == p[..|p| - 1] + [p[|p| - 1] + w]
    decreases |s|
  {
    var i := IndexOf(s, c);
    if i == |s| {
      assert s[..i] == s;
      SplitWhole(s, c);
      SplitWhole(s + w, c);
      assert [s][..0] + [s + w] == [s + w];
    } else {
      SplitAt(s, c);
      SplitAppend(s[i + 1..], w, c);
      SplitAppendHead(s[..i], s[i + 1..], w, c);
    }
  }

  /** A separator between two texts separates their parts. */
  lemma {:induction false} SplitConcat(s: string, t: string, c: char)
    ensures Split(s + [c] + t, c) == Split(s, c) + Split(t, c)
    decreases |s|
  {
    var i := IndexOf(s, c);
    if i == |s| {
      assert s[..i] == s;
      SplitWhole(s, c);
      SplitHead(s, t, c);
    } else {
      var a, rest := s[..i], s[i + 1..];
      SplitAt(s, c);
      RegroupedTwice(a, c, rest, t);
      SplitHead(a, rest + [c] + t, c);
      SplitConcat(rest, t, c);
      ConsConcat(a, Split(rest, c), Split(t, c));
    }
  }

  lemma SplitTerminated(s: string, c: char)
    ensures Split(s + [c], c) == Split(s, c) + [""]
  {
    SplitConcat(s, "", c);
    SplitWhole("", c);
    assert s + [c] + "" == s + [c];
  }

  // ---------- white space ----------

  /** The one-, two- and three-byte UTF-8 encodings of the runes for which
      unicode.IsSpace holds. */
  predicate Space1(a: char) {
    '\t' <= a <= '\r' || a == ' '
  }

  predicate Space2(a: char, b: char) {
    a == '\U{c2}' && (b == '\U{85}' || b == '\U{a0}')
  }

  predicate Space3(a: char, b: char, c: char) {
    || (a == '\U{e1}' && b == '\U{9a}' && c == '\U{80}')
    || (a == '\U{e2}' && b == '\U{80}' && '\U{80}' <= c <= '\U{8a}')
    || (a == '\U{e2}' && b == '\U{80}' && (c == '\U{a8}' || c == '\U{a9}' || c == '\U{af}'))
    || (a == '\U{e2}' && b == '\U{81}' && c == '\U{9f}')
    || (a == '\U{e3}' && b == '\U{80}' && c == '\U{80}')
  }

  /** The length of the white-space rune `s` starts with, or 0. */
  function LeadSpace(s: string): (k: nat)
    ensures k <= |s|
  {
    if |s| >= 1 && Space1(s[0]) then 1
    else if |s| >= 2 && Space2(s[0], s[1]) then 2
    else if |s| >= 3 && Space3(s[0], s[1], s[2]) then 3
    else 0
  }

  /** The length of the white-space rune `s` ends with, or 0. */
  function TailSpace(s: string): (k: nat)
    ensures k <= |s|
  {
    var n := |s|;
    if n >= 1 && Space1(s[n - 1]) then 1
    else if n >= 2 && Space2(s[n - 2], s[n - 1]) then 2
    else if n >= 3 && Space3(s[n - 3], s[n - 2], s[n - 1]) then 3
    else 0
  }

  function TrimLeft(s: string): (t: string)
    ensures |t| <= |s| && t == s[|s| - |t|..]
    decreases |s|
  {
    if LeadSpace(s) == 0 then s else TrimLeft(s[LeadSpace(s)..])
  }

  function TrimRight(s: string): (t: string)
    ensures t <= s
    decreases |s|
  {
    if TailSpace(s) == 0 then s else TrimRight(s[..|s| - TailSpace(s)])
  }

  /** strings.TrimSpace. */
  function TrimSpace(s: string): string {
    TrimRight(TrimLeft(s))
  }

  /** A byte that no white-space rune contains. */
  predicate Solid(c: char) {
    c < '\U{80}' && !Space1(c)
  }

  lemma TrimLeftSolid(s: string)
    requires s != "" && Solid(s[0])
    ensures TrimLeft(s) == s
  {
  }

  lemma {:induction false} TrimRightKeeps(s: string, k: nat)
    requires 0 < k <= |s| && Solid(s[k - 1])
    ensures k <= |TrimRight(s)|
    decreases |s|
  {
    if TailSpace(s) != 0 {
      TrimRightKeeps(s[..|s| - TailSpace(s)], k);
    }
  }

  /** Only bytes of white space are cut off the end. */
  lemma TrimRightTail(s: string)
    ensures forall i :: |TrimRight(s)| <= i < |s| ==> !Solid(s[i])
  {
    forall i | |TrimRight(s)| <= i < |s| ensures !Solid(s[i]) {
      if Solid(s[i]) {
        TrimRightKeeps(s, i + 1);
      }
    }
  }

  /** Text that starts and ends in a solid byte is left alone. */
  lemma TrimSolid(s: string)
    requires s != "" && Solid(s[0])
    ensures TrimSpace(s) == TrimRight(s) != ""
    ensures Solid(s[|s| - 1]) ==> TrimSpace(s) == s
  {
    TrimLeftSolid(s);
    TrimRightKeeps(s, 1);
    if Solid(s[|s| - 1]) {
      TrimRightKeeps(s, |s|);
    }
  }

  lemma TrimRightSpace(s: string)
    ensures TrimRight(s + " ") == TrimRight(s)
  {
    var t := s + " ";
    assert TailSpace(t) == 1 && t[..|t| - 1] == s;
  }

  lemma TrimSpaceAfter(s: string)
    requires s != "" && Solid(s[0]) && Solid(s[|s| - 1])
    ensures TrimSpace(s + " ") == s
  {
    TrimLeftSolid(s + " ");
    TrimRightSpace(s);
    TrimLeftSolid(s);
    TrimRightKeeps(s, |s|);
  }

  lemma {:induction false} TrimLeftKeeps(s: string, i: nat)
    requires i < |s| && Solid(s[i])
    ensures |s| - i <= |TrimLeft(s)|
    decreases |s|
  {
    var k := LeadSpace(s);
    if k != 0 {
      TrimLeftKeeps(s[k..], i - k);
    }
  }

  /** Text with a solid byte in it is not blank. */
  lemma SolidSurvives(s: string, i: nat)
    requires i < |s| && Solid(s[i])
    ensures TrimSpace(s) != ""
  {
    TrimLeftKeeps(s, i);
    var t := TrimLeft(s);
    var j := i - (|s| - |t|);
    assert t[j] == s[i];
    TrimRightKeeps(t, j + 1);
  }
}
