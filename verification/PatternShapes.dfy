/** The textual shapes, as the expressions of the source spell them: words, separators, repetitions. */
module PatternShapes {
  import opened Patterns

  /** The words with one separator between each two. */
  function Join(words: seq<string>, separator: char): string {
    if words == [] then "" else if |words| == 1 then words[0]
    else words[0] + [separator] + Join(words[1..], separator)
  }

  predicate Word(s: string) {
    s != "" && forall i | 0 <= i < |s| :: 'a' <= s[i] <= 'z' || '0' <= s[i] <= '9'
  }

  predicate AllWords(words: seq<string>) {
    words != [] && forall w | w in words :: Word(w)
  }

  predicate AllSlugs(words: seq<string>) {
    words != [] && forall w | w in words :: SlugText(w)
  }

  // ---------------------------------------------------------------- slugs

  function FirstHyphen(s: string): (r: nat)
    ensures r <= |s| && (r < |s| ==> s[r] == '-') && forall i | 0 <= i < r :: s[i] != '-'
  {
    if s == "" || s[0] == '-' then 0 else 1 + FirstHyphen(s[1..])
  }

  lemma SlugSplits(s: string)
    requires SlugText(s)
    ensures Word(s[..FirstHyphen(s)])
    ensures FirstHyphen(s) < |s| ==> SlugText(s[FirstHyphen(s) + 1..])
  {
    hide FirstHyphen;
    var i := FirstHyphen(s);
    assert s[0] != '-';
    if i < |s| {
      var rest := s[i + 1..];
      assert s[i + 1] != '-';
      forall j | 0 <= j < |rest|
        ensures Alnum(rest[j]) || (rest[j] == '-' && 0 < j < |rest| - 1 && rest[j - 1] != '-')
      {
        assert rest[j] == s[i + 1 + j];
      }
    }
  }

  lemma {:induction false} WordsOf(s: string) returns (words: seq<string>)
    requires SlugText(s)
    ensures AllWords(words) && s == Join(words, '-')
    decreases |s|
  {
    hide SlugText, FirstHyphen;
    var i := FirstHyphen(s);
    SlugSplits(s);
    if i == |s| {
      words := [s];
      assert s[..i] == s;
    } else {
      var rest := WordsOf(s[i + 1..]);
      words := [s[..i]] + rest;
      assert words[1..] == rest;
      assert s == s[..i] + ['-'] + s[i + 1..];
    }
  }

  lemma {:induction false} JoinIsSlug(words: seq<string>)
    requires AllWords(words)
    ensures SlugText(Join(words, '-'))
    decreases |words|
  {
    assert Word(words[0]);
    if |words| > 1 {
      assert AllWords(words[1..]) by { assert forall w | w in words[1..] :: w in words; }
      JoinIsSlug(words[1..]);
      WordThenSlug(words[0], Join(words[1..], '-'));
    }
  }

  lemma WordThenSlug(word: string, slug: string)
    requires Word(word) && SlugText(slug)
    ensures SlugText(word + ['-'] + slug)
  {
    var s := word + ['-'] + slug;
    var n := |word|;
    assert slug[0] != '-';
    forall i | 0 <= i < |s| ensures Alnum(s[i]) || (s[i] == '-' && 0 < i < |s| - 1 && s[i - 1] != '-') {
      if i < n {
        assert s[i] == word[i];
      } else if i == n {
        assert s[n - 1] == word[n - 1];
      } else {
        assert s[i] == slug[i - n - 1];
        if i > n + 1 { assert s[i - 1] == slug[i - n - 2]; }
      }
    }
  }

  /** Alphanumeric words joined by single hyphens. */
  lemma SlugExactly(s: string)
    ensures SlugText(s) <==> exists words :: AllWords(words) && s == Join(words, '-')
  {
    hide SlugText, AllWords, Join;
    if SlugText(s) { var words := WordsOf(s); }
    if words :| AllWords(words) && s == Join(words, '-') { JoinIsSlug(words); }
  }

  /** At most 80 characters of slug. */
  lemma IDExactly(s: string)
    ensures ValidID(s) <==> |s| <= 80 && exists words :: AllWords(words) && s == Join(words, '-')
  {
    hide SlugText, AllWords, Join;
    SlugExactly(s);
  }

  // ---------------------------------------------------------------- capabilities

  lemma SlugHasNoDot(s: string)
    requires SlugText(s)
    ensures forall i | 0 <= i < |s| :: s[i] != '.'
  {
  }

  lemma DotAfter(word: string, rest: string)
    requires forall i | 0 <= i < |word| :: word[i] != '.'
    ensures FirstDot(word + ['.'] + rest) == |word|
  {
    hide FirstDot;
    var s := word + ['.'] + rest;
    assert forall i | 0 <= i < |word| :: s[i] == word[i];
    assert s[|word|] == '.';
  }

  lemma NoDot(word: string)
    requires forall i | 0 <= i < |word| :: word[i] != '.'
    ensures FirstDot(word) == |word|
  {
    hide FirstDot;
  }

  lemma {:induction false} SlugsOf(s: string) returns (words: seq<string>)
    requires DottedText(s)
    ensures AllSlugs(words) && s == Join(words, '.')
    decreases |s|
  {
    hide SlugText, FirstDot;
    var dot := FirstDot(s);
    if dot == |s| {
      words := [s];
      assert s[..dot] == s;
    } else {
      var rest := SlugsOf(s[dot + 1..]);
      words := [s[..dot]] + rest;
      assert words[1..] == rest;
      assert s == s[..dot] + ['.'] + s[dot + 1..];
    }
  }

  lemma {:induction false} JoinIsDotted(words: seq<string>)
    requires AllSlugs(words)
    ensures DottedText(Join(words, '.'))
    decreases |words|
  {
    hide SlugText, FirstDot;
    assert SlugText(words[0]);
    SlugHasNoDot(words[0]);
    if |words| == 1 {
      NoDot(words[0]);
      assert words[0][..|words[0]|] == words[0];
    } else {
      assert AllSlugs(words[1..]) by { assert forall w | w in words[1..] :: w in words; }
      JoinIsDotted(words[1..]);
      var rest := Join(words[1..], '.');
      var s := words[0] + ['.'] + rest;
      DotAfter(words[0], rest);
      assert s[..|words[0]|] == words[0] && s[|words[0]| + 1..] == rest;
    }
  }

  /** At most 160 characters: slugs joined by single dots. */
  lemma CapabilityExactly(s: string)
    ensures ValidCapability(s) <==> |s| <= 160 && exists words :: AllSlugs(words) && s == Join(words, '.')
  {
    hide DottedText, AllSlugs, Join;
    if DottedText(s) { var words := SlugsOf(s); }
    if words :| AllSlugs(words) && s == Join(words, '.') { JoinIsDotted(words); }
  }

  // ---------------------------------------------------------------- digests, reasons, adapters

  predicate Hex(s: string) {
    |s| == 64 && forall i | 0 <= i < |s| :: '0' <= s[i] <= '9' || 'a' <= s[i] <= 'f'
  }

  lemma DigestExactly(s: string)
    ensures ValidDigest(s) <==> exists hex :: Hex(hex) && s == "sha256:" + hex
  {
    if ValidDigest(s) {
      assert s == "sha256:" + s[7..];
      assert Hex(s[7..]);
    }
    if hex :| Hex(hex) && s == "sha256:" + hex {
      assert s[..7] == "sha256:" && s[7..] == hex;
      forall i | 7 <= i < |s| ensures '0' <= s[i] <= '9' || 'a' <= s[i] <= 'f' { assert s[i] == hex[i - 7]; }
    }
  }

  predicate ReasonMiddle(s: string) {
    |s| <= 78 && forall i | 0 <= i < |s| :: Alnum(s[i]) || s[i] == '_'
  }

  lemma ReasonExactly(s: string)
    ensures ValidReason(s) <==>
      || (|s| == 1 && Alnum(s[0]))
      || exists middle :: ReasonMiddle(middle) && |s| >= 2 && s == [s[0]] + middle + [s[|s| - 1]] && Alnum(s[0]) && Alnum(s[|s| - 1])
  {
    if ValidReason(s) && |s| >= 2 {
      assert s == [s[0]] + s[1..|s| - 1] + [s[|s| - 1]];
      assert ReasonMiddle(s[1..|s| - 1]);
    }
    if |s| >= 2 {
      if middle :| ReasonMiddle(middle) && s == [s[0]] + middle + [s[|s| - 1]] && Alnum(s[0]) && Alnum(s[|s| - 1]) {
        forall i | 0 <= i < |s| ensures Alnum(s[i]) || s[i] == '_' {
          if 0 < i < |s| - 1 { assert s[i] == middle[i - 1]; }
        }
      }
    }
  }

  predicate Version(s: string) {
    s != "" && '1' <= s[0] <= '9' && forall i | 0 <= i < |s| :: '0' <= s[i] <= '9'
  }

  /** At most 160 characters: the prefix, a slug, and a version without leading zero. */
  lemma AdapterExactly(s: string)
    ensures ValidAdapter(s) <==>
      |s| <= 160 && exists slug, version :: SlugText(slug) && Version(version) && s == "gotth-stack-adapter-" + slug + ".v" + version
  {
    hide SlugText, FirstDot;
    if ValidAdapter(s) {
      var rest := s[20..];
      var dot := FirstDot(rest);
      var version := rest[dot + 2..];
      assert s == "gotth-stack-adapter-" + rest[..dot] + ".v" + version;
      forall i | 0 <= i < |version| ensures '0' <= version[i] <= '9' { assert version[i] == rest[dot + 1..][i + 1]; }
      assert Version(version);
    }
    if slug, version :| SlugText(slug) && Version(version) && s == "gotth-stack-adapter-" + slug + ".v" + version {
      AdapterFrom(s, slug, version);
    }
  }

  lemma AdapterFrom(s: string, slug: string, version: string)
    requires SlugText(slug) && Version(version) && s == "gotth-stack-adapter-" + slug + ".v" + version
    ensures |s| <= 160 ==> ValidAdapter(s)
  {
    hide SlugText, FirstDot;
    var rest := s[20..];
    SlugHasNoDot(slug);
    assert s[..20] == ADAPTER_PREFIX;
    assert rest == slug + ['.'] + (['v'] + version);
    DotAfter(slug, ['v'] + version);
    assert rest[..|slug|] == slug && rest[|slug| + 1..] == ['v'] + version;
  }
}
