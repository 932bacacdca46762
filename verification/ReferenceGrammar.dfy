/** The regular expressions of evidence references, with the meaning of a full
    match, and the direct description of what they accept. */
module ReferenceGrammar {
  import opened Characters
  import opened Splitting

  // ----- regular expressions -----

  datatype CharClass = Alphanumeric | Word | Hex

  predicate IsAlphanumeric(c: char) {
    'A' <= c <= 'Z' || 'a' <= c <= 'z' || '0' <= c <= '9'
  }

  predicate IsJoiner(c: char) {
    c == '.' || c == '_' || c == '~' || c == '-'
  }

  predicate Has(chars: CharClass, c: char) {
    match chars
    case Alphanumeric => IsAlphanumeric(c)
    case Word => IsAlphanumeric(c) || IsJoiner(c)
    case Hex => '0' <= c <= '9' || 'a' <= c <= 'f'
  }

  const JOINERS := "._~-"

  lemma Joiners(c: char)
    ensures c in JOINERS <==> IsJoiner(c)
  {
    assert JOINERS[0] == '.' && JOINERS[1] == '_' && JOINERS[2] == '~' && JOINERS[3] == '-';
  }

  /** The three classes, by their members. */
  lemma ClassesAreListed(c: char)
    ensures Has(Alphanumeric, c) <==> c in UPPER || c in LOWER || c in DIGITS
    ensures Has(Word, c) <==> c in UPPER || c in LOWER || c in DIGITS || c in JOINERS
    ensures Has(Hex, c) <==> c in DIGITS || c in HEX_LETTERS
  {
    UpperLetters(c);
    LowerLetters(c);
    Digits(c);
    Joiners(c);
    HexLetters(c);
  }

  /** An expression, as the texts it matches in full. */
  type Regex = string -> bool

  ghost function Literal(text: string): Regex {
    s => s == text
  }

  ghost function One(chars: CharClass): Regex {
    s => |s| == 1 && Has(chars, s[0])
  }

  ghost function Cat(first: Regex, second: Regex): Regex {
    s => exists i :: 0 <= i <= |s| && first(s[..i]) && second(s[i..])
  }

  ghost function Optional(body: Regex): Regex {
    s => s == "" || body(s)
  }

  ghost predicate Repeats(body: Regex, n: nat, s: string)
    decreases n
  {
    if n == 0 then s == ""
    else exists i :: 0 <= i <= |s| && body(s[..i]) && Repeats(body, n - 1, s[i..])
  }

  ghost function Star(body: Regex): Regex {
    s => exists n: nat :: Repeats(body, n, s)
  }

  ghost function Times(body: Regex, low: nat, high: nat): Regex {
    s => exists n: nat :: low <= n <= high && Repeats(body, n, s)
  }

  /** `[A-Za-z0-9](?:[A-Za-z0-9._~-]{0,62}[A-Za-z0-9])?` */
  ghost const SEGMENT: Regex := Cat(One(Alphanumeric), Optional(Cat(Times(One(Word), 0, 62), One(Alphanumeric))))

  /** `(?:SEGMENT)(?:/SEGMENT)*` */
  ghost const PATH: Regex := Cat(SEGMENT, Star(Cat(Literal("/"), SEGMENT)))

  /** `[0-9a-f]{64}` */
  ghost const DIGEST: Regex := Times(One(Hex), 64, 64)

  /** `hmac-sha256://SEGMENT/DIGEST` */
  ghost const HMAC_REFERENCE: Regex := Cat(Literal("hmac-sha256://"), Cat(SEGMENT, Cat(Literal("/"), DIGEST)))

  /** `sha256:DIGEST` */
  ghost const SHA256_DIGEST: Regex := Cat(Literal("sha256:"), DIGEST)

  // ----- the same languages, directly -----

  predicate AllIn(chars: CharClass, s: string) {
    forall k :: 0 <= k < |s| ==> Has(chars, s[k])
  }

  predicate IsSegment(s: string) {
    && 1 <= |s| <= 64
    && IsAlphanumeric(s[0]) && IsAlphanumeric(s[|s| - 1])
    && AllIn(Word, s)
  }

  predicate IsPath(s: string) {
    forall k :: 0 <= k < |Split(s, '/')| ==> IsSegment(Split(s, '/')[k])
  }

  predicate IsDigest(s: string) {
    |s| == 64 && AllIn(Hex, s)
  }

  predicate StartsWith(s: string, prefix: string) {
    |prefix| <= |s| && s[..|prefix|] == prefix
  }

  predicate IsKeyedDigest(s: string) {
    |s| >= 65 && IsSegment(s[..|s| - 65]) && s[|s| - 65] == '/' && IsDigest(s[|s| - 64..])
  }

  predicate IsHmacReference(s: string) {
    StartsWith(s, "hmac-sha256://") && IsKeyedDigest(s[|"hmac-sha256://"|..])
  }

  predicate IsSha256Digest(s: string) {
    StartsWith(s, "sha256:") && IsDigest(s[|"sha256:"|..])
  }

  // ----- proofs -----

  lemma CatMatches(first: Regex, second: Regex, a: string, b: string)
    requires first(a) && second(b)
    ensures Cat(first, second)(a + b)
  {
    assert (a + b)[..|a|] == a && (a + b)[|a|..] == b;
  }

  lemma CatSplits(first: Regex, second: Regex, s: string) returns (a: string, b: string)
    requires Cat(first, second)(s)
    ensures s == a + b && first(a) && second(b)
  {
    var i :| 0 <= i <= |s| && first(s[..i]) && second(s[i..]);
    a, b := s[..i], s[i..];
  }

  lemma {:induction false} RepeatsOfClass(chars: CharClass, n: nat, s: string)
    ensures Repeats(One(chars), n, s) <==> |s| == n && AllIn(chars, s)
    decreases n
  {
    if n > 0 {
      if Repeats(One(chars), n, s) {
        var i :| 0 <= i <= |s| && One(chars)(s[..i]) && Repeats(One(chars), n - 1, s[i..]);
        RepeatsOfClass(chars, n - 1, s[i..]);
        assert i == 1 && s == [s[0]] + s[1..];
      }
      if |s| == n && AllIn(chars, s) {
        RepeatsOfClass(chars, n - 1, s[1..]);
        assert One(chars)(s[..1]);
      }
    }
  }

  lemma TimesCounts(r: Regex, low: nat, high: nat, s: string) returns (n: nat)
    requires Times(r, low, high)(s)
    ensures low <= n <= high && Repeats(r, n, s)
  {
    n :| low <= n <= high && Repeats(r, n, s);
  }

  lemma RepeatsOnce(r: Regex, n: nat, s: string) returns (a: string, b: string)
    requires n > 0 && Repeats(r, n, s)
    ensures s == a + b && r(a) && Repeats(r, n - 1, b)
  {
    var i :| 0 <= i <= |s| && r(s[..i]) && Repeats(r, n - 1, s[i..]);
    a, b := s[..i], s[i..];
  }

  lemma OneMoreRepeat(r: Regex, a: string, n: nat, b: string)
    requires r(a) && Repeats(r, n, b)
    ensures Repeats(r, n + 1, a + b)
  {
    var s := a + b;
    assert s[..|a|] == a && s[|a|..] == b;
  }

  lemma TimesOfClass(chars: CharClass, low: nat, high: nat, s: string)
    ensures Times(One(chars), low, high)(s) <==> low <= |s| <= high && AllIn(chars, s)
  {
    RepeatsOfClass(chars, |s|, s);
    if Times(One(chars), low, high)(s) {
      var n := TimesCounts(One(chars), low, high, s);
      RepeatsOfClass(chars, n, s);
    }
  }

  lemma SegmentTailSplits(s: string)
    requires Cat(Times(One(Word), 0, 62), One(Alphanumeric))(s)
    ensures 1 <= |s| <= 63 && AllIn(Word, s) && IsAlphanumeric(s[|s| - 1])
  {
    var a, b := CatSplits(Times(One(Word), 0, 62), One(Alphanumeric), s);
    TimesOfClass(Word, 0, 62, a);
    assert s[|s| - 1] == b[0];
    assert forall k :: 0 <= k < |a| ==> s[k] == a[k];
  }

  lemma SegmentTailJoins(s: string)
    requires 1 <= |s| <= 63 && AllIn(Word, s) && IsAlphanumeric(s[|s| - 1])
    ensures Cat(Times(One(Word), 0, 62), One(Alphanumeric))(s)
  {
    var a, b := s[..|s| - 1], s[|s| - 1..];
    TimesOfClass(Word, 0, 62, a);
    CatMatches(Times(One(Word), 0, 62), One(Alphanumeric), a, b);
    assert s == a + b;
  }

  lemma SegmentGrammar(s: string)
    ensures SEGMENT(s) <==> IsSegment(s)
  {
    var tail := Optional(Cat(Times(One(Word), 0, 62), One(Alphanumeric)));
    if SEGMENT(s) {
      var a, b := CatSplits(One(Alphanumeric), tail, s);
      assert s[0] == a[0] && forall k :: 0 <= k < |b| ==> s[k + 1] == b[k];
      if b != "" {
        SegmentTailSplits(b);
        forall k | 0 <= k < |s| ensures Has(Word, s[k]) {
          assert k > 0 ==> s[k] == b[k - 1];
        }
      }
    }
    if IsSegment(s) {
      if |s| > 1 {
        SegmentTailJoins(s[1..]);
      }
      CatMatches(One(Alphanumeric), tail, s[..1], s[1..]);
      assert s == s[..1] + s[1..];
    }
  }

  lemma WordsHaveNoSlash(s: string)
    requires AllIn(Word, s)
    ensures '/' !in s
  {
  }

  // The proofs below speak of any expression `r` with the language `good`.

  ghost predicate Accepts(r: Regex, good: string -> bool) {
    forall s :: r(s) <==> good(s)
  }

  ghost predicate AllGood(good: string -> bool, parts: seq<string>) {
    forall k :: 0 <= k < |parts| ==> good(parts[k])
  }

  ghost predicate Unseparated(good: string -> bool, sep: char) {
    forall s :: good(s) ==> sep !in s
  }

  /** `n` items one after the other, each `sep` and a good text. */
  ghost predicate Chain(good: string -> bool, sep: char, n: nat, s: string) {
    if n == 0 then s == ""
    else exists i :: 1 <= i <= |s| && s[0] == sep && good(s[1..i]) && Chain(good, sep, n - 1, s[i..])
  }

  lemma ChainOnce(good: string -> bool, sep: char, n: nat, s: string) returns (c: string, rest: string)
    requires n > 0 && Chain(good, sep, n, s)
    ensures s == [sep] + c + rest && good(c) && Chain(good, sep, n - 1, rest)
  {
    var i :| 1 <= i <= |s| && s[0] == sep && good(s[1..i]) && Chain(good, sep, n - 1, s[i..]);
    c, rest := s[1..i], s[i..];
  }

  lemma LongerChain(good: string -> bool, sep: char, c: string, n: nat, rest: string)
    requires good(c) && Chain(good, sep, n, rest)
    ensures Chain(good, sep, n + 1, [sep] + c + rest)
  {
    var s := [sep] + c + rest;
    assert s[1..|c| + 1] == c && s[|c| + 1..] == rest;
  }

  lemma ItemBegins(r: Regex, good: string -> bool, sep: char, s: string)
    requires Accepts(r, good) && Cat(Literal([sep]), r)(s)
    ensures s != "" && s[0] == sep && good(s[1..])
  {
    var a, b := CatSplits(Literal([sep]), r, s);
    assert s[1..] == b;
  }

  lemma {:induction false} RepeatsAreChains(item: Regex, good: string -> bool, sep: char, n: nat, s: string)
    requires forall t :: item(t) ==> t != "" && t[0] == sep && good(t[1..])
    requires Repeats(item, n, s)
    ensures Chain(good, sep, n, s)
    decreases n
  {
    if n > 0 {
      var a, b := RepeatsOnce(item, n, s);
      RepeatsAreChains(item, good, sep, n - 1, b);
      assert s[1..|a|] == a[1..] && s[|a|..] == b && s[0] == a[0];
    }
  }

  lemma {:induction false} ChainsAreRepeats(item: Regex, good: string -> bool, sep: char, n: nat, s: string)
    requires forall c :: good(c) ==> item([sep] + c)
    requires Chain(good, sep, n, s)
    ensures Repeats(item, n, s)
    decreases n
  {
    if n > 0 {
      var c, rest := ChainOnce(good, sep, n, s);
      ChainsAreRepeats(item, good, sep, n - 1, rest);
      var first := [sep] + c;
      assert item(first);
      assert s == first + rest;
      OneMoreRepeat(item, first, n - 1, rest);
    }
  }

  lemma {:induction false} ChainsSplit(good: string -> bool, sep: char, a: string, n: nat, b: string)
    requires Unseparated(good, sep) && good(a) && Chain(good, sep, n, b)
    ensures AllGood(good, Split(a + b, sep))
    decreases n
  {
    if n == 0 {
      assert a + b == a;
      SplitWithoutSeparator(a, sep);
    } else {
      var c, rest := ChainOnce(good, sep, n, b);
      ChainsSplit(good, sep, c, n - 1, rest);
      assert a + b == a + [sep] + (c + rest);
      SplitAtSeparator(a, c + rest, sep);
      GoodInFront(good, a, Split(c + rest, sep));
    }
  }

  lemma GoodInFront(good: string -> bool, a: string, parts: seq<string>)
    requires good(a) && AllGood(good, parts)
    ensures AllGood(good, [a] + parts)
  {
  }

  lemma SplitOnce(good: string -> bool, sep: char, s: string) returns (head: string, tail: string)
    requires sep in s && AllGood(good, Split(s, sep))
    ensures s == head + [sep] + tail && good(head) && AllGood(good, Split(tail, sep))
  {
    FirstPiece(s, sep);
    var parts := Split(s, sep);
    head := parts[0];
    tail := s[|head| + 1..];
    assert forall k :: 0 <= k < |parts| - 1 ==> parts[1..][k] == parts[k + 1];
  }

  lemma {:induction false} SplitsChain(good: string -> bool, sep: char, s: string)
    returns (a: string, n: nat, b: string)
    requires AllGood(good, Split(s, sep))
    ensures s == a + b && good(a) && Chain(good, sep, n, b)
    decreases |s|
  {
    if sep in s {
      var tail, c, m, d;
      a, tail := SplitOnce(good, sep, s);
      c, m, d := SplitsChain(good, sep, tail);
      LongerChain(good, sep, c, m, d);
      n, b := m + 1, [sep] + c + d;
      Regroup(a, [sep], c, d);
    } else {
      SplitWithoutSeparator(s, sep);
      a, n, b := s, 0, "";
      assert good(Split(s, sep)[0]);
    }
  }

  lemma Regroup(a: string, b: string, c: string, d: string)
    ensures a + b + (c + d) == a + (b + c + d)
  {
  }

  /** A separated list of `r` accepts exactly the texts whose pieces `r` accepts. */
  lemma SeparatedGrammar(r: Regex, good: string -> bool, sep: char, s: string)
    requires Accepts(r, good) && Unseparated(good, sep)
    ensures Cat(r, Star(Cat(Literal([sep]), r)))(s) <==> AllGood(good, Split(s, sep))
  {
    var item := Cat(Literal([sep]), r);
    if Cat(r, Star(item))(s) {
      forall t | item(t) ensures t != "" && t[0] == sep && good(t[1..]) {
        ItemBegins(r, good, sep, t);
      }
      var a, b := CatSplits(r, Star(item), s);
      var n: nat :| Repeats(item, n, b);
      RepeatsAreChains(item, good, sep, n, b);
      ChainsSplit(good, sep, a, n, b);
    }
    if AllGood(good, Split(s, sep)) {
      var a, n, b := SplitsChain(good, sep, s);
      forall c | good(c) ensures item([sep] + c) {
        CatMatches(Literal([sep]), r, [sep], c);
      }
      ChainsAreRepeats(item, good, sep, n, b);
      assert Star(item)(b);
      CatMatches(r, Star(item), a, b);
    }
  }

  lemma PrefixGrammar(prefix: string, r: Regex, good: string -> bool, s: string)
    requires Accepts(r, good)
    ensures Cat(Literal(prefix), r)(s) <==> StartsWith(s, prefix) && good(s[|prefix|..])
  {
    if Cat(Literal(prefix), r)(s) {
      var a, b := CatSplits(Literal(prefix), r, s);
      assert s[..|prefix|] == prefix && s[|prefix|..] == b;
    }
    if StartsWith(s, prefix) && good(s[|prefix|..]) {
      CatMatches(Literal(prefix), r, prefix, s[|prefix|..]);
      assert s == prefix + s[|prefix|..];
    }
  }

  ghost predicate LongAs(good: string -> bool, n: nat) {
    forall s :: good(s) ==> |s| == n
  }

  ghost predicate HasFixedTail(good: string -> bool, tail: string -> bool, sep: char, n: nat, s: string) {
    |s| >= n + 1 && good(s[..|s| - n - 1]) && s[|s| - n - 1] == sep && tail(s[|s| - n..])
  }

  lemma FixedTailSplits(r: Regex, good: string -> bool, t: Regex, tail: string -> bool, sep: char, n: nat, s: string)
    requires Accepts(r, good) && Accepts(t, tail) && LongAs(tail, n)
    requires Cat(r, Cat(Literal([sep]), t))(s)
    ensures HasFixedTail(good, tail, sep, n, s)
  {
    var a, b := CatSplits(r, Cat(Literal([sep]), t), s);
    var c, d := CatSplits(Literal([sep]), t, b);
    assert s == a + [sep] + d && |d| == n;
    assert s[..|s| - n - 1] == a && s[|s| - n..] == d;
  }

  lemma FixedTailJoins(r: Regex, good: string -> bool, t: Regex, tail: string -> bool, sep: char, n: nat, s: string)
    requires Accepts(r, good) && Accepts(t, tail)
    requires HasFixedTail(good, tail, sep, n, s)
    ensures Cat(r, Cat(Literal([sep]), t))(s)
  {
    var a, d := s[..|s| - n - 1], s[|s| - n..];
    CatMatches(Literal([sep]), t, [sep], d);
    CatMatches(r, Cat(Literal([sep]), t), a, [sep] + d);
    assert s == a + ([sep] + d);
  }

  /** The path expression accepts exactly the texts whose `/`-separated pieces are
      all of 1 to 64 allowed characters, alphanumeric at both ends. */
  lemma PathGrammar(s: string)
    ensures PATH(s) <==> IsPath(s)
  {
    SegmentLanguage();
    SeparatedGrammar(SEGMENT, IsSegment, '/', s);
  }

  lemma SegmentLanguage()
    ensures Accepts(SEGMENT, IsSegment) && Unseparated(IsSegment, '/')
  {
    forall s ensures SEGMENT(s) <==> IsSegment(s) {
      SegmentGrammar(s);
    }
    forall s | IsSegment(s) ensures '/' !in s {
      WordsHaveNoSlash(s);
    }
  }

  lemma DigestLanguage()
    ensures Accepts(DIGEST, IsDigest) && LongAs(IsDigest, 64)
  {
    forall s ensures DIGEST(s) <==> IsDigest(s) {
      TimesOfClass(Hex, 64, 64, s);
    }
  }

  /** The digest expression accepts exactly `sha256:` and 64 lower-case hexadecimal
      digits. */
  lemma Sha256Grammar(s: string)
    ensures SHA256_DIGEST(s) <==> IsSha256Digest(s)
  {
    DigestLanguage();
    PrefixGrammar("sha256:", DIGEST, IsDigest, s);
  }

  /** The keyed expression accepts exactly the scheme, one segment, a slash and 64
      lower-case hexadecimal digits. */
  lemma HmacGrammar(s: string)
    ensures HMAC_REFERENCE(s) <==> IsHmacReference(s)
  {
    var keyed := Cat(SEGMENT, Cat(Literal("/"), DIGEST));
    assert Accepts(keyed, IsKeyedDigest) by {
      SegmentLanguage();
      DigestLanguage();
      forall t ensures keyed(t) <==> IsKeyedDigest(t) {
        if keyed(t) {
          FixedTailSplits(SEGMENT, IsSegment, DIGEST, IsDigest, '/', 64, t);
        }
        if IsKeyedDigest(t) {
          FixedTailJoins(SEGMENT, IsSegment, DIGEST, IsDigest, '/', 64, t);
        }
      }
    }
    PrefixGrammar("hmac-sha256://", keyed, IsKeyedDigest, s);
  }
}
