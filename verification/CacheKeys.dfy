/** Names of cache entries.  Namespace and generation are part of the name, so the proofs need that
    two different (generation, value) pairs of one namespace never share a name, and to know which
    namespaces can share one. */
module CacheKeys {

  function Decimal(n: nat): (d: string)
    ensures d != [] && forall c :: c in d ==> '0' <= c <= '9'
    decreases n
  {
    var last := ['0' + (n % 10) as char];
    if n < 10 then last else Decimal(n / 10) + last
  }

  function DecimalValue(d: string): int {
    if d == [] then 0 else DecimalValue(d[..|d| - 1]) * 10 + (d[|d| - 1] as int - '0' as int)
  }

  lemma {:induction false} DecimalRoundTrip(n: nat)
    ensures DecimalValue(Decimal(n)) == n
  {
    var d := Decimal(n);
    if n < 10 {
      assert d[..0] == [];
    } else {
      DecimalRoundTrip(n / 10);
      assert d[..|d| - 1] == Decimal(n / 10);
    }
  }

  function VersionedKey(namespace: string, generation: nat, value: string): string {
    "cache:" + namespace + ":v" + Decimal(generation) + ":" + value
  }

  function FirstColon(s: string): nat {
    if s == "" || s[0] == ':' then 0 else 1 + FirstColon(s[1..])
  }

  lemma {:induction false} FirstColonAfter(a: string, rest: string)
    requires ':' !in a
    ensures FirstColon(a + ":" + rest) == |a|
  {
    if a == "" {
      assert a + ":" + rest == ":" + rest;
    } else {
      assert (a + ":" + rest)[1..] == a[1..] + ":" + rest;
      FirstColonAfter(a[1..], rest);
    }
  }

  /** A colon-free prefix is determined by the first colon. */
  lemma SplitAtColon(a: string, b: string, rest: string, rest': string)
    requires ':' !in a && ':' !in b && a + ":" + rest == b + ":" + rest'
    ensures a == b && rest == rest'
  {
    FirstColonAfter(a, rest);
    FirstColonAfter(b, rest');
    var whole, whole' := a + ":" + rest, b + ":" + rest';
    assert whole[..|a|] == a && whole'[..|b|] == b;
    assert whole[|a| + 1..] == rest && whole'[|b| + 1..] == rest';
  }

  lemma VersionedKeyInjective(namespace: string, g: nat, v: string, g': nat, v': string)
    ensures VersionedKey(namespace, g, v) == VersionedKey(namespace, g', v') <==> g == g' && v == v'
  {
    if VersionedKey(namespace, g, v) == VersionedKey(namespace, g', v') {
      var head := "cache:" + namespace + ":v";
      var tail, tail' := Decimal(g) + ":" + v, Decimal(g') + ":" + v';
      assert head + tail == VersionedKey(namespace, g, v);
      assert head + tail' == VersionedKey(namespace, g', v');
      assert tail == (head + tail)[|head|..] && tail' == (head + tail')[|head|..];
      SplitAtColon(Decimal(g), Decimal(g'), v, v');
      DecimalRoundTrip(g);
      DecimalRoundTrip(g');
    }
  }

  /** Where the generation counter of a namespace is kept, in the same Redis. */
  function GenerationKey(namespace: string): string { "cache:generation:" + namespace }

  const GENERATION := "generation:"

  lemma SameStart(n: string, rest: string, m: string)
    requires rest != [] && rest[0] == ':' && n + rest == GENERATION + m
    ensures n == "generation" || GENERATION <= n
  {
    var k, whole := |n|, GENERATION + m;
    assert n == whole[..k] && whole[k] == ':';
    if k < |GENERATION| {
      assert n == GENERATION[..k] && GENERATION[k] == ':';
    } else {
      assert n[..|GENERATION|] == whole[..|GENERATION|] == GENERATION;
    }
  }

  /** No entry shares its name with a counter, for namespaces other than those that begin like one. */
  lemma CounterApart(n: string, g: nat, v: string, m: string)
    requires n != "generation" && !("generation:" <= n)
    ensures VersionedKey(n, g, v) != GenerationKey(m)
  {
    var rest := ":v" + Decimal(g) + ":" + v;
    assert VersionedKey(n, g, v)[6..] == n + rest;
    assert GenerationKey(m)[6..] == GENERATION + m;
    if n + rest == GENERATION + m { SameStart(n, rest, m); }
  }

  // ---------------------------------------------------------------- several namespaces

  /** `longer` is `shorter` followed by what reads as a version of it. */
  ghost predicate Nested(shorter: string, longer: string) {
    && shorter <= longer
    && exists g: nat :: ReadsAsVersion(longer[|shorter|..], g)
  }

  predicate ReadsAsVersion(p: string, g: nat) {
    var version := ":v" + Decimal(g);
    p == version || version + ":" <= p
  }

  /** The first colon after the leading one ends the version. */
  lemma NoColonInVersion(g: nat, j: nat)
    requires 0 < j < 2 + |Decimal(g)|
    ensures (":v" + Decimal(g))[j] != ':'
  {
    assert j >= 2 ==> (":v" + Decimal(g))[j] == Decimal(g)[j - 2];
  }

  lemma PrefixReadsAsVersion(p: string, tail: string, g: nat, v: string)
    requires p != [] && tail != [] && tail[0] == ':' && p + tail == ":v" + Decimal(g) + ":" + v
    ensures ReadsAsVersion(p, g)
  {
    var version := ":v" + Decimal(g);
    var m, rest := |version|, p + tail;
    assert rest == version + ":" + v && rest[..m] == version && rest[m] == ':' && rest[|p|] == ':';
    if |p| < m { NoColonInVersion(g, |p|); }
    assert p[..m] == rest[..m];
    if |p| == m { assert p == p[..m]; } else { assert p[..m + 1] == version + ":"; }
  }

  /** Equal names of namespaces of which the first is shorter. */
  lemma EqualNamesNest(shorter: string, longer: string, g: nat, v: string, g': nat, v': string)
    requires |shorter| < |longer| && VersionedKey(shorter, g, v) == VersionedKey(longer, g', v')
    ensures Nested(shorter, longer)
  {
    var n, rest, rest' := |shorter|, ":v" + Decimal(g) + ":" + v, ":v" + Decimal(g') + ":" + v';
    assert VersionedKey(shorter, g, v)[6..] == shorter + rest;
    assert VersionedKey(longer, g', v')[6..] == longer + rest';
    assert longer[..n] == (longer + rest')[..n] == shorter;
    assert longer[n..] + rest' == (longer + rest')[n..] == rest;
    PrefixReadsAsVersion(longer[n..], rest', g, v);
  }

  lemma NestedNamesCollide(shorter: string, longer: string) returns (g: nat, v: string)
    requires Nested(shorter, longer)
    ensures VersionedKey(shorter, g, v) == VersionedKey(longer, 1, "")
  {
    g :| ReadsAsVersion(longer[|shorter|..], g);
    var p, version := longer[|shorter|..], ":v" + Decimal(g);
    assert longer == shorter + p;
    if p == version {
      v := "v1:";
    } else {
      v := p[|version| + 1..] + ":v1:";
      assert p == version + ":" + p[|version| + 1..];
    }
    assert Decimal(1) == "1";
    assert VersionedKey(longer, 1, "") == "cache:" + shorter + p + ":v1:";
    assert p + ":v1:" == version + ":" + v;
    assert VersionedKey(shorter, g, v) == "cache:" + shorter + (version + ":" + v);
  }

  ghost predicate CanCollide(n: string, n': string) {
    exists g: nat, v, g': nat, v' :: VersionedKey(n, g, v) == VersionedKey(n', g', v')
  }

  /** Two namespaces can share a name exactly when they are equal, or one is the other followed by
      what reads as a version of it. */
  lemma CollideExactly(n: string, n': string)
    ensures CanCollide(n, n') <==> n == n' || Nested(n, n') || Nested(n', n)
  {
    if CanCollide(n, n') {
      var g: nat, v, g': nat, v' :| VersionedKey(n, g, v) == VersionedKey(n', g', v');
      if |n| < |n'| {
        EqualNamesNest(n, n', g, v, g', v');
      } else if |n'| < |n| {
        EqualNamesNest(n', n, g', v', g, v);
      } else {
        assert VersionedKey(n, g, v)[6..6 + |n|] == n && VersionedKey(n', g', v')[6..6 + |n|] == n';
      }
    }
    if n == n' {
      assert VersionedKey(n, 1, "") == VersionedKey(n', 1, "");
    }
    if Nested(n, n') {
      var g, v := NestedNamesCollide(n, n');
      assert CanCollide(n, n');
    }
    if Nested(n', n) {
      var g, v := NestedNamesCollide(n', n);
      assert VersionedKey(n, 1, "") == VersionedKey(n', g, v);
    }
  }

  /** ":v" does not occur. */
  predicate VersionFree(n: string) { forall i :: 0 <= i < |n| - 1 ==> !(n[i] == ':' && n[i + 1] == 'v') }

  lemma VersionStarts(p: string, g: nat)
    ensures ReadsAsVersion(p, g) ==> |p| >= 2 && p[0] == ':' && p[1] == 'v'
  {
    var version := ":v" + Decimal(g);
    assert version[0] == ':' && version[1] == 'v' && (version + ":")[..2] == version[..2];
  }

  lemma VersionFreeNotNested(n: string, n': string)
    requires VersionFree(n')
    ensures !Nested(n, n')
  {
    if n <= n' {
      forall g: nat ensures !ReadsAsVersion(n'[|n|..], g) { VersionStarts(n'[|n|..], g); }
    }
  }

  /** For namespaces in which ":v" does not occur a name determines namespace, generation and value. */
  lemma NamesApart(n: string, g: nat, v: string, n': string, g': nat, v': string)
    requires VersionFree(n) && VersionFree(n')
    ensures VersionedKey(n, g, v) == VersionedKey(n', g', v') <==> n == n' && g == g' && v == v'
  {
    if VersionedKey(n, g, v) == VersionedKey(n', g', v') {
      assert CanCollide(n, n');
      CollideExactly(n, n');
      VersionFreeNotNested(n, n');
      VersionFreeNotNested(n', n);
      VersionedKeyInjective(n, g, v, g', v');
    }
  }
}
