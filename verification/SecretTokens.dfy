/** The textual scan for secret tokens in a compose file (tileschema/secrets.go). */
module SecretTokens {
  import opened Text

  const PREFIX := "${secret:"
  const PREFIX_LENGTH := 9

  datatype Token = Token(start: nat, end: nat, name: string)

  /** validate.go's ValidDNSLabel, the rule for secret names. */
  predicate ValidSecretName(s: string) {
    && 1 <= |s| <= 63
    && forall i :: 0 <= i < |s| ==>
         'a' <= s[i] <= 'z' || '0' <= s[i] <= '9' || (s[i] == '-' && 0 < i < |s| - 1)
  }

  // ---------- occurrences ----------

  predicate Occurs(s: string, i: int) {
    0 <= i && i + PREFIX_LENGTH <= |s| && s[i..i + PREFIX_LENGTH] == PREFIX
  }

  /** The prefix stands after the first `i` bytes. */
  lemma OccursIff(s: string, i: nat)
    ensures Occurs(s, i) <==> exists a, b: string :: |a| == i && s == a + "${secret:" + b
  {
    if Occurs(s, i) {
      var a, b := s[..i], s[i + 9..];
      assert s == a + s[i..i + 9] + b;
    }
    if a, b: string :| |a| == i && s == a + "${secret:" + b {
      assert s[i..i + 9] == "${secret:";
    }
  }

  predicate Escaped(s: string, i: nat)
    requires i <= |s|
  {
    i > 0 && s[i - 1] == '$'
  }

  /** The bytes from `i` to `e` are a whole token. */
  predicate Spans(s: string, i: nat, e: nat) {
    && i + PREFIX_LENGTH < e <= |s|
    && s[e - 1] == '}'
    && ValidSecretName(s[i + PREFIX_LENGTH..e - 1])
  }

  /** A well-formed, unescaped occurrence. */
  ghost predicate WellFormed(s: string, i: nat) {
    Occurs(s, i) && (i > 0 ==> s[i - 1] != '$') && exists e: nat :: Spans(s, i, e)
  }

  lemma PrefixBytes()
    ensures |PREFIX| == PREFIX_LENGTH && PREFIX[0] == '$' && forall k :: 0 < k < PREFIX_LENGTH ==> PREFIX[k] != '$'
  {
  }

  /** Occurrences start with the only dollar they contain. */
  lemma OccursDollar(s: string, i: nat)
    requires Occurs(s, i)
    ensures s[i] == '$' && forall k :: i < k < i + PREFIX_LENGTH ==> s[k] != '$'
  {
    PrefixBytes();
    var t := s[i..i + PREFIX_LENGTH];
    assert t[0] == s[i];
    forall k | i < k < i + PREFIX_LENGTH ensures s[k] != '$' {
      assert t[k - i] == s[k];
    }
  }

  lemma NameBytes(s: string, i: nat, e: nat)
    requires Spans(s, i, e)
    ensures forall k :: i + PREFIX_LENGTH <= k < e - 1 ==> s[k] != '$' && s[k] != '}' && s[k] != '\n'
  {
    var name := s[i + PREFIX_LENGTH..e - 1];
    forall k | i + PREFIX_LENGTH <= k < e - 1 ensures s[k] != '$' && s[k] != '}' && s[k] != '\n' {
      assert name[k - i - PREFIX_LENGTH] == s[k];
    }
  }

  /** Inside a token no other occurrence begins. */
  lemma NoneInside(s: string, i: nat, e: nat, j: nat)
    requires Occurs(s, i) && Spans(s, i, e) && i < j < e
    ensures !Occurs(s, j)
  {
    OccursDollar(s, i);
    NameBytes(s, i, e);
    if Occurs(s, j) {
      OccursDollar(s, j);
    }
  }

  // ---------- the scan ----------

  /** strings.Index of the prefix from `i`, or the end of the text. */
  function NextOccurrence(s: string, i: nat): (j: nat)
    requires i <= |s|
    ensures i <= j <= |s|
    ensures j < |s| ==> Occurs(s, j)
    ensures forall k :: i <= k < j ==> !Occurs(s, k)
    ensures j == |s| ==> forall k :: i <= k ==> !Occurs(s, k)
    decreases |s| - i
  {
    if i == |s| then |s| else if Occurs(s, i) then i else NextOccurrence(s, i + 1)
  }

  /** strings.IndexAny for a closing brace or a newline, or the end. */
  function NextClose(s: string, i: nat): (j: nat)
    requires i <= |s|
    ensures i <= j <= |s|
    ensures j < |s| ==> s[j] == '}' || s[j] == '\n'
    ensures forall k :: i <= k < j ==> s[k] != '}' && s[k] != '\n'
    decreases |s| - i
  {
    if i == |s| || s[i] == '}' || s[i] == '\n' then i else NextClose(s, i + 1)
  }

  /** The tokens found so far: exactly the occurrences before `i`, in order, each
      whole and apart from the next. */
  ghost predicate Found(s: string, tokens: seq<Token>, i: nat) {
    && (forall k :: 0 <= k < |tokens| ==> Whole(s, tokens[k]) && tokens[k].end <= i)
    && (forall j, k :: 0 <= j < k < |tokens| ==> tokens[j].end <= tokens[k].start)
    && (forall p :: 0 <= p < i && Occurs(s, p) ==> exists k :: 0 <= k < |tokens| && tokens[k].start == p)
  }

  ghost predicate Whole(s: string, t: Token) {
    && Occurs(s, t.start) && (t.start > 0 ==> s[t.start - 1] != '$') && Spans(s, t.start, t.end)
    && t.name == s[t.start + PREFIX_LENGTH..t.end - 1]
  }

  ghost predicate AllWellFormed(s: string) {
    forall i: nat :: Occurs(s, i) ==> WellFormed(s, i)
  }

  lemma CloseSpans(s: string, i: nat, e: nat)
    requires Occurs(s, i) && e == NextClose(s, i + PREFIX_LENGTH)
    ensures e < |s| && s[e] == '}' && ValidSecretName(s[i + PREFIX_LENGTH..e]) <==> exists f: nat :: Spans(s, i, f)
    ensures e < |s| && s[e] == '}' && ValidSecretName(s[i + PREFIX_LENGTH..e]) ==> Spans(s, i, e + 1)
  {
    if f: nat :| Spans(s, i, f) {
      NameBytes(s, i, f);
      assert e == f - 1;
    }
    if e < |s| && s[e] == '}' && ValidSecretName(s[i + PREFIX_LENGTH..e]) {
      assert Spans(s, i, e + 1);
    }
  }

  lemma FoundMore(s: string, tokens: seq<Token>, i: nat, t: Token)
    requires Found(s, tokens, i) && i <= t.start && Whole(s, t)
    requires forall k :: i <= k < t.start ==> !Occurs(s, k)
    ensures Found(s, tokens + [t], t.end)
  {
    var more := tokens + [t];
    forall p | 0 <= p < t.end && Occurs(s, p) ensures exists k :: 0 <= k < |more| && more[k].start == p {
      if p < i {
        var k :| 0 <= k < |tokens| && tokens[k].start == p;
        assert more[k].start == p;
      } else if p == t.start {
        assert more[|tokens|].start == p;
      } else {
        NoneInside(s, t.start, t.end, p);
      }
    }
  }

  method ScanSecretTokens(compose: string) returns (r: Option<seq<Token>>)
    ensures r.Some? <==> AllWellFormed(compose)
    ensures r.Some? ==> Found(compose, r.value, |compose|)
  {
    var out: seq<Token>, i := [], 0;
    while true
      invariant i <= |compose| && Found(compose, out, i)
      decreases |compose| - i
    {
      var start := NextOccurrence(compose, i);
      if start == |compose| {
        FoundAll(compose, out, i);
        return Some(out);
      }
      var nameStart := start + PREFIX_LENGTH;
      var close := NextClose(compose, nameStart);
      CloseSpans(compose, start, close);
      if Escaped(compose, start) {
        return None;
      }
      if close == |compose| || compose[close] != '}' {
        return None;
      }
      var name := compose[nameStart..close];
      if !ValidSecretName(name) {
        return None;
      }
      var t := Token(start, close + 1, name);
      FoundMore(compose, out, i, t);
      out, i := out + [t], close + 1;
    }
  }

  lemma FoundAll(s: string, tokens: seq<Token>, i: nat)
    requires i <= |s| && Found(s, tokens, i) && forall k :: i <= k ==> !Occurs(s, k)
    ensures Found(s, tokens, |s|) && AllWellFormed(s)
  {
    forall p: nat | Occurs(s, p) ensures WellFormed(s, p) {
      var k :| 0 <= k < |tokens| && tokens[k].start == p;
      assert Spans(s, p, tokens[k].end);
    }
  }

  // ---------- the text, taken apart ----------

  function Written(t: Token): string {
    PREFIX + t.name + "}"
  }

  /** Tokens that lie in order within `n` bytes, apart. */
  ghost predicate Ordered(tokens: seq<Token>, n: nat) {
    && (forall k :: 0 <= k < |tokens| ==> tokens[k].start < tokens[k].end <= n)
    && (forall j, k :: 0 <= j < k < |tokens| ==> tokens[j].end <= tokens[k].start)
  }

  function From(tokens: seq<Token>, k: nat): nat
    requires k <= |tokens|
  {
    if k == 0 then 0 else tokens[k - 1].end
  }

  function To(tokens: seq<Token>, k: nat, n: nat): nat
    requires k <= |tokens|
  {
    if k < |tokens| then tokens[k].start else n
  }

  /** The text before token `k`, or after the last one. */
  ghost function Gap(s: string, tokens: seq<Token>, k: nat): string
    requires Ordered(tokens, |s|) && k <= |tokens|
  {
    s[From(tokens, k)..To(tokens, k, |s|)]
  }

  /** The first `k` gaps and tokens, put together. */
  ghost function Woven(s: string, tokens: seq<Token>, k: nat): string
    requires Ordered(tokens, |s|) && k <= |tokens|
  {
    if k == 0 then "" else Woven(s, tokens, k - 1) + Gap(s, tokens, k - 1) + Written(tokens[k - 1])
  }

  lemma TokenText(s: string, t: Token)
    requires Whole(s, t)
    ensures Written(t) == s[t.start..t.end] && t.start < t.end
  {
    var named := t.start + PREFIX_LENGTH;
    assert s[t.start..t.end] == s[t.start..named] + s[named..t.end - 1] + [s[t.end - 1]];
  }

  lemma FoundOrdered(s: string, tokens: seq<Token>)
    requires Found(s, tokens, |s|)
    ensures Ordered(tokens, |s|)
    ensures forall k :: 0 <= k < |tokens| ==> Written(tokens[k]) == s[tokens[k].start..tokens[k].end]
  {
    forall k | 0 <= k < |tokens|
      ensures Written(tokens[k]) == s[tokens[k].start..tokens[k].end] && tokens[k].start < tokens[k].end
    {
      TokenText(s, tokens[k]);
    }
  }

  lemma {:induction false} WovenPrefix(s: string, tokens: seq<Token>, k: nat)
    requires Ordered(tokens, |s|) && k <= |tokens|
    requires forall k :: 0 <= k < |tokens| ==> Written(tokens[k]) == s[tokens[k].start..tokens[k].end]
    ensures Woven(s, tokens, k) == s[..From(tokens, k)]
  {
    if k > 0 {
      WovenPrefix(s, tokens, k - 1);
      ThreeSlices(s, From(tokens, k - 1), tokens[k - 1].start, tokens[k - 1].end);
    }
  }

  lemma ThreeSlices(s: string, a: nat, b: nat, e: nat)
    requires a <= b <= e <= |s|
    ensures s[..a] + s[a..b] + s[b..e] == s[..e]
  {
  }

  lemma GapsClose(s: string, tokens: seq<Token>, woven: string)
    requires Ordered(tokens, |s|) && woven == s[..From(tokens, |tokens|)]
    ensures s == woven + Gap(s, tokens, |tokens|)
  {
    var a := From(tokens, |tokens|);
    assert s == s[..a] + s[a..|s|];
  }

  /** The text is the gaps and the tokens, in turn. */
  lemma Decomposed(s: string, tokens: seq<Token>)
    requires Found(s, tokens, |s|)
    ensures Ordered(tokens, |s|)
    ensures s == Woven(s, tokens, |tokens|) + Gap(s, tokens, |tokens|)
  {
    FoundOrdered(s, tokens);
    WovenPrefix(s, tokens, |tokens|);
    GapsClose(s, tokens, Woven(s, tokens, |tokens|));
  }

  /** And no gap holds the prefix. */
  lemma GapsFree(s: string, tokens: seq<Token>)
    requires Found(s, tokens, |s|)
    ensures Ordered(tokens, |s|)
    ensures forall k, i :: 0 <= k <= |tokens| ==> !Occurs(Gap(s, tokens, k), i)
  {
    FoundOrdered(s, tokens);
    forall k, i | 0 <= k <= |tokens| ensures !Occurs(Gap(s, tokens, k), i) {
      GapFree(s, tokens, k, i);
    }
  }

  lemma NoStartInGap(tokens: seq<Token>, n: nat, k: nat, j: nat)
    requires Ordered(tokens, n) && k <= |tokens| && j < |tokens|
    ensures !(From(tokens, k) <= tokens[j].start < To(tokens, k, n))
  {
  }

  lemma OccursInGap(s: string, a: nat, b: nat, i: int)
    requires a <= b <= |s| && Occurs(s[a..b], i)
    ensures Occurs(s, a + i) && a + i < b
  {
    SliceOfSlice(s, a, b, i, i + PREFIX_LENGTH);
  }

  lemma SliceOfSlice(s: string, a: nat, b: nat, c: nat, d: nat)
    requires a <= b <= |s| && c <= d <= b - a
    ensures s[a..b][c..d] == s[a + c..a + d]
  {
    forall k | 0 <= k < d - c ensures s[a..b][c..d][k] == s[a + c..a + d][k] {
    }
  }

  lemma GapFree(s: string, tokens: seq<Token>, k: nat, i: int)
    requires Found(s, tokens, |s|) && Ordered(tokens, |s|) && k <= |tokens|
    ensures !Occurs(Gap(s, tokens, k), i)
  {
    if Occurs(Gap(s, tokens, k), i) {
      var a := From(tokens, k);
      OccursInGap(s, a, To(tokens, k, |s|), i);
      var j :| 0 <= j < |tokens| && tokens[j].start == a + i;
      NoStartInGap(tokens, |s|, k, j);
    }
  }
}
