/** app/adapters/outbound/persistence/database.py, lines 12-18: how
    `Database.__init__` rewrites the connection URL before creating the
    engine. */
module DatabaseUrl {
  import opened Text

  const PlainScheme := "postgresql://"
  const PsycopgScheme := "postgresql+psycopg://"
  const AsyncpgScheme := "postgresql+asyncpg://"
  const SupabaseHost := "supabase.co"
  const SslModeKey := "sslmode"
  const SslModeRequire := "sslmode=require"

  /** No URL starts with both schemes: they differ at their eleventh
      character. */
  lemma SchemesExclusive(url: string)
    ensures !(StartsWith(url, PlainScheme) && StartsWith(url, PsycopgScheme))
  {
    if StartsWith(url, PlainScheme) && |url| >= |PsycopgScheme| {
      assert url[..|PlainScheme|][10] == url[10] == url[..|PsycopgScheme|][10];
    }
  }

  /** The scheme step: `postgresql://` and `postgresql+asyncpg://` both
      become `postgresql+psycopg://`, which is left alone. */
  function SchemeStep(url: string): (r: string)
    ensures StartsWith(url, PlainScheme) ==> r == PsycopgScheme + url[|PlainScheme|..]
    ensures StartsWith(url, PsycopgScheme) ==> r == url
    ensures !StartsWith(url, PlainScheme) && !StartsWith(url, PsycopgScheme) ==>
      var i := Find(url, AsyncpgScheme);
      && (i < 0 ==> r == url)
      && (i >= 0 ==> r == url[..i] + PsycopgScheme + url[i + |AsyncpgScheme|..])
  {
    if StartsWith(url, PlainScheme) then
      ReplaceFirstAtStart(url, PlainScheme, PsycopgScheme);
      SchemesExclusive(url);
      ReplaceFirst(url, PlainScheme, PsycopgScheme)
    else if !StartsWith(url, PsycopgScheme) then
      ReplaceFirst(url, AsyncpgScheme, PsycopgScheme)
    else url
  }

  /** Whether the SSL step appends a parameter. */
  predicate NeedsSslMode(url: string) {
    Contains(url, SupabaseHost) && !Contains(url, SslModeKey)
  }

  /** The SSL step: a Supabase URL that does not mention sslmode gets
      `sslmode=require` as a further query parameter. */
  function SslStep(url: string): (r: string)
    ensures NeedsSslMode(url) ==>
      r == url + (if Contains(url, "?") then "&" else "?") + SslModeRequire
    ensures !NeedsSslMode(url) ==> r == url
    ensures Contains(r, SupabaseHost) ==> Contains(r, SslModeKey)
  {
    if NeedsSslMode(url) then
      var separator := if Contains(url, "?") then "&" else "?";
      var r := url + separator + SslModeRequire;
      assert r[|url| + 1..] == SslModeRequire;
      assert SslModeRequire[..|SslModeKey|] == SslModeKey;
      assert r[|url| + 1..|url| + 1 + |SslModeKey|] == SslModeKey;
      OccursAtContains(r, SslModeKey, |url| + 1);
      r
    else url
  }

  /** The SSL step is idempotent: it never appends a second parameter. */
  lemma SslStepIdempotent(url: string)
    ensures SslStep(SslStep(url)) == SslStep(url)
  {
  }

  /** An occurrence of `w` and one of `p` can neither overlap nor nest:
      wherever the first character of one could fall inside the other,
      the next character differs. */
  predicate Separated(w: string, p: string) {
    && |w| >= 2 && |p| >= 2
    && (forall k :: 1 <= k < |w| && w[k] == p[0] ==> k + 1 < |w| && w[k + 1] != p[1])
    && (forall d :: 0 <= d < |p| && p[d] == w[0] ==> d + 1 < |p| && p[d + 1] != w[1])
  }

  lemma OccursAtChar(s: string, w: string, j: int, k: int)
    requires OccursAt(s, w, j) && 0 <= k < |w|
    ensures s[j + k] == w[k]
  {
    assert s[j..j + |w|][k] == s[j + k];
  }

  /** Occurrences of separated strings lie apart. */
  lemma Apart(s: string, w: string, p: string, j: int, i: int)
    requires Separated(w, p) && OccursAt(s, w, j) && OccursAt(s, p, i)
    ensures j + |w| <= i || i + |p| <= j
  {
    if j < i < j + |w| {
      OccursAtChar(s, p, i, 0);
      OccursAtChar(s, w, j, i - j);
      OccursAtChar(s, p, i, 1);
      if i - j + 1 < |w| { OccursAtChar(s, w, j, i - j + 1); }
    }
    if i <= j < i + |p| {
      OccursAtChar(s, w, j, 0);
      OccursAtChar(s, p, i, j - i);
      OccursAtChar(s, w, j, 1);
      if j - i + 1 < |p| { OccursAtChar(s, p, i, j - i + 1); }
    }
  }

  /** `Separated`, checked one index at a time so that it can be
      computed on the constants. */
  predicate SeparatedFrom(w: string, p: string, k: nat)
    requires |p| >= 2
    decreases |w| - k
  {
    k >= |w| || ((w[k] == p[0] ==> k + 1 < |w| && w[k + 1] != p[1]) && SeparatedFrom(w, p, k + 1))
  }

  lemma {:induction false} SeparatedFromAll(w: string, p: string, k: nat)
    requires |p| >= 2 && SeparatedFrom(w, p, k)
    ensures forall m :: k <= m < |w| && w[m] == p[0] ==> m + 1 < |w| && w[m + 1] != p[1]
    decreases |w| - k
  {
    if k < |w| {
      SeparatedFromAll(w, p, k + 1);
    }
  }

  lemma SeparatedByIndex(w: string, p: string)
    requires |w| >= 2 && |p| >= 2
    requires SeparatedFrom(w, p, 1) && SeparatedFrom(p, w, 0)
    ensures Separated(w, p)
  {
    SeparatedFromAll(w, p, 1);
    SeparatedFromAll(p, w, 0);
  }

  /** The host name cannot straddle or sit inside the psycopg scheme. */
  lemma HostSeparatedFromPsycopg()
    ensures Separated(SupabaseHost, PsycopgScheme)
  {
    assert SeparatedFrom(PsycopgScheme, SupabaseHost, 14);
    assert SeparatedFrom(PsycopgScheme, SupabaseHost, 7);
    SeparatedByIndex(SupabaseHost, PsycopgScheme);
  }

  /** The sslmode key cannot straddle or sit inside the plain scheme. */
  lemma KeySeparatedFromPlain()
    ensures Separated(SslModeKey, PlainScheme)
  {
    assert SeparatedFrom(PlainScheme, SslModeKey, 7);
    SeparatedByIndex(SslModeKey, PlainScheme);
  }

  /** The sslmode key cannot straddle or sit inside the asyncpg scheme. */
  lemma KeySeparatedFromAsyncpg()
    ensures Separated(SslModeKey, AsyncpgScheme)
  {
    assert SeparatedFrom(AsyncpgScheme, SslModeKey, 14);
    assert SeparatedFrom(AsyncpgScheme, SslModeKey, 7);
    SeparatedByIndex(SslModeKey, AsyncpgScheme);
  }

  /** An occurrence of `w` that lies apart from the spliced-out `s[i..i + |a|]`
      survives the splice. */
  lemma KeepOccurrence(s: string, a: string, b: string, w: string, i: int, j: int)
    requires 0 <= i && i + |a| <= |s| && OccursAt(s, w, j)
    requires j + |w| <= i || i + |a| <= j
    ensures Contains(s[..i] + b + s[i + |a|..], w)
  {
    var r := s[..i] + b + s[i + |a|..];
    if j + |w| <= i {
      assert r[j..j + |w|] == s[j..j + |w|];
      OccursAtContains(r, w, j);
    } else {
      var j' := j - |a| + |b|;
      assert r[j'..j' + |w|] == s[j..j + |w|];
      OccursAtContains(r, w, j');
    }
  }

  /** Splicing a `b` that `w` is separated from in place of an occurrence
      of `a` creates no occurrence of `w`. */
  lemma SpliceCreatesNone(s: string, a: string, b: string, w: string, i: int)
    requires Separated(w, b) && OccursAt(s, a, i)
    requires Contains(s[..i] + b + s[i + |a|..], w)
    ensures Contains(s, w)
  {
    var r := s[..i] + b + s[i + |a|..];
    var j := Find(r, w);
    SpliceUndone(s, a, b, i, r);
    Apart(r, w, b, j, i);
    KeepOccurrence(r, b, a, w, i, j);
  }

  /** Splicing `a` back in place of the spliced `b` restores the text. */
  lemma SpliceUndone(s: string, a: string, b: string, i: int, r: string)
    requires OccursAt(s, a, i) && r == s[..i] + b + s[i + |a|..]
    ensures OccursAt(r, b, i)
    ensures r[..i] + a + r[i + |b|..] == s
  {
    assert r[i..i + |b|] == b;
    assert r[..i] == s[..i] && r[i + |b|..] == s[i + |a|..];
    assert s == s[..i] + s[i..i + |a|] + s[i + |a|..];
  }

  /** Replacing the first `a` keeps every occurrence of a `w` that is
      separated from `a`. */
  lemma ReplaceFirstKeeps(s: string, a: string, b: string, w: string)
    requires Separated(w, a) && Contains(s, w)
    ensures Contains(ReplaceFirst(s, a, b), w)
  {
    var i := Find(s, a);
    if i >= 0 {
      var j := Find(s, w);
      Apart(s, w, a, j, i);
      KeepOccurrence(s, a, b, w, i, j);
      assert ReplaceFirst(s, a, b) == s[..i] + b + s[i + |a|..];
    }
  }

  /** Replacing the first `a` by `b` creates no occurrence of a `w` that
      is separated from `b`. */
  lemma ReplaceFirstCreatesNone(s: string, a: string, b: string, w: string)
    requires Separated(w, b) && Contains(ReplaceFirst(s, a, b), w)
    ensures Contains(s, w)
  {
    var i := Find(s, a);
    if i >= 0 {
      assert ReplaceFirst(s, a, b) == s[..i] + b + s[i + |a|..];
      SpliceCreatesNone(s, a, b, w, i);
    }
  }

  /** The scheme step neither brings in the Supabase host nor removes an
      sslmode parameter. */
  lemma SchemeStepKeepsSsl(url: string)
    ensures Contains(SchemeStep(url), SupabaseHost) ==> Contains(url, SupabaseHost)
    ensures Contains(url, SslModeKey) ==> Contains(SchemeStep(url), SslModeKey)
  {
    HostSeparatedFromPsycopg();
    KeySeparatedFromPlain();
    KeySeparatedFromAsyncpg();
    if StartsWith(url, PlainScheme) {
      if Contains(SchemeStep(url), SupabaseHost) {
        ReplaceFirstCreatesNone(url, PlainScheme, PsycopgScheme, SupabaseHost);
      }
      if Contains(url, SslModeKey) {
        ReplaceFirstKeeps(url, PlainScheme, PsycopgScheme, SslModeKey);
      }
    } else if !StartsWith(url, PsycopgScheme) {
      if Contains(SchemeStep(url), SupabaseHost) {
        ReplaceFirstCreatesNone(url, AsyncpgScheme, PsycopgScheme, SupabaseHost);
      }
      if Contains(url, SslModeKey) {
        ReplaceFirstKeeps(url, AsyncpgScheme, PsycopgScheme, SslModeKey);
      }
    }
  }

  /** Normalising a URL a second time appends no second sslmode
      parameter: the SSL step then has nothing to do. */
  lemma RenormalizeAddsNoSslMode(databaseUrl: string)
    ensures var once := SslStep(SchemeStep(databaseUrl));
      SslStep(SchemeStep(once)) == SchemeStep(once)
  {
    var once := SslStep(SchemeStep(databaseUrl));
    SchemeStepKeepsSsl(once);
  }

  /** `Database.__init__`, lines 12-18: the URL is rewritten in place,
      first the scheme and then the SSL parameter. */
  method NormalizeDatabaseUrl(databaseUrl: string) returns (url: string)
    ensures url == SslStep(SchemeStep(databaseUrl))
    ensures Contains(url, SupabaseHost) ==> Contains(url, SslModeKey)
  {
    url := databaseUrl;
    if StartsWith(url, PlainScheme) {
      url := ReplaceFirst(url, PlainScheme, PsycopgScheme);
    } else if !StartsWith(url, PsycopgScheme) {
      url := ReplaceFirst(url, AsyncpgScheme, PsycopgScheme);
    }
    if Contains(url, SupabaseHost) && !Contains(url, SslModeKey) {
      var separator := if Contains(url, "?") then "&" else "?";
      url := url + separator + SslModeRequire;
    }
  }
}
