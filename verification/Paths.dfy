/** path.Clean on absolute paths, and containment between clean paths. */
module Paths {
  import opened Text

  type Path = seq<string>

  predicate Absolute(p: string) {
    p != "" && p[0] == '/'
  }

  /** One component of a path being cleaned. */
  function Push(stack: Path, part: string): Path {
    if part == "" || part == "." then stack
    else if part == ".." then (if stack == [] then [] else stack[..|stack| - 1])
    else stack + [part]
  }

  function Resolve(parts: seq<string>): Path {
    if parts == [] then [] else Push(Resolve(parts[..|parts| - 1]), parts[|parts| - 1])
  }

  /** The components of the cleaned path. */
  function Components(p: string): Path {
    Resolve(Split(p, '/'))
  }

  /** An absolute path written out. */
  function Render(comps: Path): string {
    ['/'] + Join(comps, '/')
  }

  /** path.Clean for an absolute path. */
  function Clean(p: string): string {
    Render(Components(p))
  }

  /** Whether `a` sits inside `b`, by text. */
  predicate Under(a: string, b: string) {
    var base := if b != "" && b[|b| - 1] == '/' then b[..|b| - 1] else b;
    base + "/" <= a
  }

  // ---------- text and components agree ----------

  /** Components as path.Clean leaves them: not empty and free of slashes. */
  ghost predicate Proper(c: Path) {
    forall i :: 0 <= i < |c| ==> c[i] != "" && '/' !in c[i]
  }

  lemma {:induction false} ResolveProper(parts: seq<string>)
    requires Without(parts, '/')
    ensures Proper(Resolve(parts))
  {
    if parts != [] {
      ResolveProper(parts[..|parts| - 1]);
    }
  }

  lemma ComponentsProper(p: string)
    ensures Proper(Components(p))
  {
    SplitParts(p, '/');
    ResolveProper(Split(p, '/'));
  }

  lemma {:induction false} JoinConcat(a: Path, b: Path)
    requires a != [] && b != []
    ensures Join(a + b, '/') == Join(a, '/') + "/" + Join(b, '/')
  {
    assert a + b == [a[0]] + (a[1..] + b);
    JoinCons(a[0], a[1..] + b, '/');
    if |a| > 1 {
      JoinConcat(a[1..], b);
      assert a == [a[0]] + a[1..];
      JoinCons(a[0], a[1..], '/');
    } else {
      assert a[1..] + b == b;
    }
  }

  lemma {:induction false} JoinEnd(c: Path)
    requires c != [] && Proper(c)
    ensures Join(c, '/') != "" && Join(c, '/')[|Join(c, '/')| - 1] != '/'
  {
    if |c| > 1 {
      JoinEnd(c[1..]);
    } else {
      assert c[0][|c[0]| - 1] in c[0];
    }
  }

  /** Text with the separator after it is a prefix exactly when the components are. */
  lemma JoinPrefix(a: Path, b: Path)
    requires a != [] && b != [] && Proper(a) && Proper(b)
    ensures Join(b, '/') + "/" <= Join(a, '/') <==> b <= a && b != a
  {
    var s, t := Join(a, '/'), Join(b, '/');
    SplitJoin(a, '/');
    SplitJoin(b, '/');
    if t + "/" <= s {
      var rest := s[|t| + 1..];
      assert s == t + ['/'] + rest;
      SplitConcat(t, rest, '/');
    }
    if b <= a && b != a {
      var tail := a[|b|..];
      assert a == b + tail;
      JoinConcat(b, tail);
    }
  }

  /** The textual test is containment of component lists; the root is under
      itself, a quirk of its trailing slash. */
  lemma UnderIff(a: Path, b: Path)
    requires Proper(a) && Proper(b)
    ensures Under(Render(a), Render(b)) <==> b <= a && (b != a || a == [])
  {
    if b == [] {
      assert Render(b)[..0] == "";
    } else {
      JoinEnd(b);
      var s, t := Render(a), Render(b);
      assert t[|t| - 1] != '/';
      assert t + "/" == ['/'] + (Join(b, '/') + "/");
      if a != [] {
        JoinPrefix(a, b);
        PrefixUnderSlash(Join(b, '/') + "/", Join(a, '/'));
      } else {
        JoinEnd(b);
        assert |t + "/"| > |s|;
      }
    }
  }

  lemma PrefixUnderSlash(x: string, y: string)
    ensures ['/'] + x <= ['/'] + y <==> x <= y
  {
    assert (['/'] + x)[1..] == x && (['/'] + y)[1..] == y;
    if ['/'] + x <= ['/'] + y {
      assert ['/'] + y == ['/'] + x + (['/'] + y)[|x| + 1..];
      assert y == x + y[|x|..];
    }
  }

  /** Clean paths are equal exactly when their components are. */
  lemma RenderInjective(a: Path, b: Path)
    requires Proper(a) && Proper(b)
    ensures Render(a) == Render(b) <==> a == b
  {
    if Render(a) == Render(b) {
      assert Render(a)[1..] == Join(a, '/') && Render(b)[1..] == Join(b, '/');
      if a != [] {
        JoinEnd(a);
        SplitJoin(a, '/');
      }
      if b != [] {
        JoinEnd(b);
        SplitJoin(b, '/');
      }
    }
  }

  /** A clean path is left alone. */
  lemma ComponentsRender(c: Path)
    requires c != [] && Proper(c) && forall i :: 0 <= i < |c| ==> c[i] != "." && c[i] != ".."
    ensures Components(Render(c)) == c
  {
    SplitHead("", Join(c, '/'), '/');
    assert Render(c) == "" + ['/'] + Join(c, '/');
    SplitJoin(c, '/');
    ResolvePlain(c);
  }

  lemma {:induction false} ResolvePlain(c: Path)
    requires forall i :: 0 <= i < |c| ==> c[i] != "" && c[i] != "." && c[i] != ".."
    ensures Resolve([""] + c) == c
  {
    var all := [""] + c;
    if c == [] {
      assert all[..0] == [];
    } else {
      ResolvePlain(c[..|c| - 1]);
      assert all[..|all| - 1] == [""] + c[..|c| - 1];
    }
  }

  // ---------- what cleaning does ----------

  lemma {:induction false} ResolveConcat(a: seq<string>, x: string)
    ensures Resolve(a + [x]) == Push(Resolve(a), x)
  {
    assert (a + [x])[..|a|] == a;
  }

  lemma ComponentsPush(p: string, x: string)
    requires '/' !in x
    ensures Components(p + ['/'] + x) == Push(Components(p), x)
  {
    SplitConcat(p, x, '/');
    SplitWhole(x, '/');
    ResolveConcat(Split(p, '/'), x);
  }

  /** What one more step does to where a path leads, and where it starts: a name goes
      down, a dot or nothing stays, two dots go up, and not above the root. Every
      absolute path is the root with such steps after it. */
  lemma ComponentsStep(p: string, x: string)
    requires '/' !in x
    ensures x != "" && x != "." && x != ".." ==> Components(p + ['/'] + x) == Components(p) + [x]
    ensures x == "" || x == "." ==> Components(p + ['/'] + x) == Components(p)
    ensures x == ".." && Components(p) == [] ==> Components(p + ['/'] + x) == []
    ensures x == ".." && Components(p) != [] ==>
              Components(p + ['/'] + x) == Components(p)[..|Components(p)| - 1]
    ensures Components("") == [] && Components("/") == []
  {
    ComponentsPush(p, x);
    SplitWhole("", '/');
    ResolveConcat([], "");
    assert [] + [""] == [""];
    ComponentsPush("", "");
    assert "" + ['/'] + "" == "/";
  }

  lemma {:induction false} ResolveClean(parts: seq<string>)
    ensures forall i :: 0 <= i < |Resolve(parts)| ==>
              Resolve(parts)[i] != "" && Resolve(parts)[i] != "." && Resolve(parts)[i] != ".."
  {
    if parts != [] {
      ResolveClean(parts[..|parts| - 1]);
    }
  }

  /** No dots or empty names are left. */
  lemma ComponentsClean(p: string)
    ensures forall i :: 0 <= i < |Components(p)| ==>
              var x := Components(p)[i]; x != "" && x != "." && x != ".." && '/' !in x
  {
    ResolveClean(Split(p, '/'));
    ComponentsProper(p);
  }

  ghost predicate PlainPath(c: Path) {
    forall i :: 0 <= i < |c| ==> c[i] != "" && c[i] != "." && c[i] != ".." && '/' !in c[i]
  }

  /** The clean absolute paths are exactly the plain components written out. */
  lemma CleanIff(p: string)
    ensures Absolute(p) && Clean(p) == p <==> exists c :: PlainPath(c) && p == "/" + Join(c, '/')
  {
    if Clean(p) == p {
      ComponentsClean(p);
      assert PlainPath(Components(p));
    }
    if c :| PlainPath(c) && p == "/" + Join(c, '/') {
      assert p == Render(c);
      if c == [] {
        ComponentsStep("", "");
      } else {
        ComponentsRender(c);
      }
    }
  }

  /** So a cleaned path is its own cleaning. */
  lemma CleanTwice(p: string)
    ensures Clean(Clean(p)) == Clean(p)
  {
    ComponentsClean(p);
    ComponentsProper(p);
    var c := Components(p);
    if c == [] {
      ComponentsStep("", "");
    } else {
      ComponentsRender(c);
    }
  }
}
