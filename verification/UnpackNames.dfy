/** Which tar names are read, and as what (backupxfer/unpack.go): a descent of
    plain components, with or without a slash at the end, and nothing else. */
module UnpackNames {
  import opened Text
  import opened Members
  import opened Unpack
  import Paths

  /** One component of a descent. */
  predicate Step(x: string) {
    x != "" && x != "." && '/' !in x && '\0' !in x && !HasDots(x)
  }

  ghost predicate Descent(c: Path) {
    c != [] && forall i :: 0 <= i < |c| ==> Step(c[i])
  }

  // ---------- dots and bytes of joined components ----------

  lemma DotsLeft(a: string, b: string)
    ensures HasDots(a) ==> HasDots(a + ['/'] + b)
    ensures HasDots(b) ==> HasDots(a + ['/'] + b)
  {
    var s := a + ['/'] + b;
    if HasDots(a) {
      var i :| 0 <= i < |a| - 1 && a[i] == '.' && a[i + 1] == '.';
      assert s[i] == '.' && s[i + 1] == '.';
    }
    if HasDots(b) {
      var i :| 0 <= i < |b| - 1 && b[i] == '.' && b[i + 1] == '.';
      assert s[|a| + 1 + i] == '.' && s[|a| + 2 + i] == '.';
    }
  }

  lemma DotsOf(a: string, b: string)
    requires HasDots(a + ['/'] + b)
    ensures HasDots(a) || HasDots(b)
  {
    var s := a + ['/'] + b;
    var i :| 0 <= i < |s| - 1 && s[i] == '.' && s[i + 1] == '.';
    if i < |a| {
      assert a[i] == '.' && a[i + 1] == '.';
    } else {
      assert b[i - |a| - 1] == '.' && b[i - |a|] == '.';
    }
  }

  /** Joining neither makes nor hides a pair of dots or a NUL. */
  lemma {:induction false} JoinedBytes(c: Path)
    requires c != []
    ensures HasDots(Join(c, '/')) <==> exists i :: 0 <= i < |c| && HasDots(c[i])
    ensures '\0' in Join(c, '/') <==> exists i :: 0 <= i < |c| && '\0' in c[i]
  {
    if |c| > 1 {
      var rest := c[1..];
      JoinedBytes(rest);
      var b := Join(rest, '/');
      assert Join(c, '/') == c[0] + ['/'] + b;
      DotsLeft(c[0], b);
      if HasDots(Join(c, '/')) {
        DotsOf(c[0], b);
      }
      forall i | 0 <= i < |rest| ensures rest[i] == c[i + 1] {
      }
      assert forall i :: 0 < i < |c| ==> c[i] == rest[i - 1];
    }
  }

  lemma JoinedStart(c: Path)
    requires Descent(c)
    ensures Join(c, '/') != "" && Join(c, '/')[0] != '/' && Join(c, '/')[|Join(c, '/')| - 1] != '/'
    ensures !HasDots(Join(c, '/')) && '\0' !in Join(c, '/')
  {
    assert Step(c[0]);
    assert Paths.Proper(c);
    Paths.JoinEnd(c);
    JoinedBytes(c);
    assert Join(c, '/')[0] == c[0][0] by {
      if |c| > 1 {
        assert Join(c, '/') == c[0] + ['/'] + Join(c[1..], '/');
      }
    }
  }

  // ---------- the exact reading ----------

  lemma DescentSplit(c: Path)
    requires Descent(c)
    ensures Split(Join(c, '/'), '/') == c && AllPlain(c)
  {
    assert Without(c, '/');
    SplitJoin(c, '/');
    forall i | 0 <= i < |c| ensures Plain(c[i]) {
      assert Step(c[i]);
      assert c[i] == ".." ==> HasDots(c[i]) by {
        assert c[i] == ".." ==> c[i][0] == '.' && c[i][1] == '.';
      }
    }
  }

  /** Every descent is read as itself, and the slash at the end of a directory's name
      is dropped. */
  lemma DescentsRead(c: Path)
    requires Descent(c)
    ensures PathOf(Join(c, '/')) == c && PathOf(Join(c, '/') + "/") == c
  {
    var n := Join(c, '/');
    JoinedStart(c);
    DescentSplit(c);
    var d := n + "/";
    DotsSlash(n);
    assert d[0] == n[0] && d[|d| - 1] == '/' && d[..|d| - 1] == n;
  }

  lemma DotsSlash(n: string)
    requires !HasDots(n)
    ensures !HasDots(n + "/")
  {
    var d := n + "/";
    forall i | 0 <= i < |d| - 1 ensures !(d[i] == '.' && d[i + 1] == '.') {
      if i + 1 < |n| {
        assert !(n[i] == '.' && n[i + 1] == '.');
      }
    }
  }

  /** And no other name is read at all. */
  lemma OnlyDescentsRead(n: string)
    requires PathOf(n) != []
    ensures Descent(PathOf(n))
    ensures n == Join(PathOf(n), '/') || n == Join(PathOf(n), '/') + "/"
  {
    var c := PathOf(n);
    PathOfParts(n);
    SplitParts(Trimmed(n), '/');
    JoinedBytes(c);
    assert !HasDots(Trimmed(n)) && '\0' !in Trimmed(n) by {
      TrimmedBytes(n);
    }
    assert n == Trimmed(n) || n == Trimmed(n) + "/";
  }

  lemma TrimmedBytes(n: string)
    requires n != "" && !Refused(n)
    ensures !HasDots(Trimmed(n)) && '\0' !in Trimmed(n)
  {
  }
}
