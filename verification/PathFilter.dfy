/** The glob patterns that prune a walk, over any base matcher. */
module PathFilter {
  import opened Options

  /** Whether one glob matches one path. */
  type Glob = (string, string) -> bool

  function TrimSlashes(s: string): (r: string)
    ensures r <= s && (r != "" ==> r[|r| - 1] != '/') && forall i | |r| <= i < |s| :: s[i] == '/'
  {
    if s != "" && s[|s| - 1] == '/' then TrimSlashes(s[..|s| - 1]) else s
  }

  /** `variants` */
  function Variants(pattern: string): seq<string> {
    var p := TrimSlashes(pattern);
    if p == "" then []
    else if '/' in p then [p, p + "/**"]
    else [p, p + "/**", "**/" + p, "**/" + p + "/**"]
  }

  /** A filter without any pattern matches nothing. */
  datatype Filter = Filter(globs: Option<seq<string>>)

  predicate Matches(f: Filter, glob: Glob, path: string) {
    f.globs.Some? && exists g | g in f.globs.value :: glob(g, path)
  }

  predicate IsVariant(patterns: seq<string>, g: string) { exists p | p in patterns :: g in Variants(p) }

  /** `f` holds exactly the variants of the patterns. */
  ghost predicate Compiled(patterns: seq<string>, f: Filter) {
    && (f.globs.Some? ==> forall g :: g in f.globs.value <==> IsVariant(patterns, g))
    && (f.globs.None? ==> forall g :: !IsVariant(patterns, g))
  }

  /** `PathFilter::new`; `valid` says which globs compile. */
  method New(patterns: seq<string>, valid: string -> bool) returns (f: Option<Filter>)
    ensures f.Some? <==> forall g :: IsVariant(patterns, g) ==> valid(g)
    ensures f.Some? ==> Compiled(patterns, f.value)
  {
    hide Variants;
    if patterns == [] { return Some(Filter(None)); }
    var globs: seq<string> := [];
    var i := 0;
    while i < |patterns|
      invariant 0 <= i <= |patterns| && forall g :: g in globs <==> IsVariant(patterns[..i], g)
      invariant forall g | g in globs :: valid(g)
    {
      var variants := Variants(patterns[i]);
      var k := 0;
      ghost var before := globs;
      while k < |variants|
        invariant 0 <= k <= |variants| && globs == before + variants[..k]
        invariant forall g | g in globs :: valid(g)
      {
        if !valid(variants[k]) {
          assert IsVariant(patterns, variants[k]);
          return None;
        }
        globs := globs + [variants[k]];
        k := k + 1;
      }
      assert globs == before + variants;
      MoreVariants(patterns, i);
      i := i + 1;
    }
    assert patterns[..|patterns|] == patterns;
    f := Some(Filter(if globs == [] then None else Some(globs)));
  }

  lemma MoreVariants(patterns: seq<string>, i: nat)
    requires i < |patterns|
    ensures forall g :: IsVariant(patterns[..i + 1], g) <==> IsVariant(patterns[..i], g) || g in Variants(patterns[i])
  {
    hide Variants;
    forall g ensures IsVariant(patterns[..i + 1], g) <==> IsVariant(patterns[..i], g) || g in Variants(patterns[i]) {
      assert patterns[..i + 1] == patterns[..i] + [patterns[i]];
      if IsVariant(patterns[..i], g) {
        var p :| p in patterns[..i] && g in Variants(p);
        assert p in patterns[..i + 1];
      }
      if g in Variants(patterns[i]) { assert patterns[i] in patterns[..i + 1]; }
    }
  }

  /** What the walk relies on: "q" followed by a recursive wildcard covers all that is below a match. */
  ghost predicate Descends(glob: Glob) {
    forall q: string, s: string, t: string | t != "" && (glob(q, s) || glob(q + "/**", s)) ::
      glob(q + "/**", s + "/" + t)
  }

  /** Each variant is a glob or its recursive form, and the recursive form is a variant too. */
  lemma Covering(pattern: string, g: string) returns (covering: string)
    requires g in Variants(pattern)
    ensures (g == covering || g == covering + "/**") && covering + "/**" in Variants(pattern)
  {
    hide TrimSlashes;
    var vs := Variants(pattern);
    var i :| 0 <= i < |vs| && vs[i] == g;
    covering := vs[i / 2 * 2];
    assert vs[i / 2 * 2 + 1] == covering + "/**";
  }

  /** Everything below a matching path matches. */
  lemma MatchesAreClosed(patterns: seq<string>, f: Filter, glob: Glob, s: string, t: string)
    requires Compiled(patterns, f) && Descends(glob) && t != "" && Matches(f, glob, s)
    ensures Matches(f, glob, s + "/" + t)
  {
    hide Variants;
    var g :| g in f.globs.value && glob(g, s);
    var p :| p in patterns && g in Variants(p);
    var covering := Covering(p, g);
    assert glob(covering + "/**", s + "/" + t);
    assert IsVariant(patterns, covering + "/**");
  }

  // ----- patterns without wildcards -----

  /** What stands before a component: nothing, or directories. */
  predicate IsFront(front: string) { front == "" || front[|front| - 1] == '/' }

  predicate Trimmed(s: string) { s == "" || s[|s| - 1] != '/' }

  /** It ends the path, or is followed by a slash. */
  predicate Ends(s: string, at: nat)
    requires at <= |s|
  {
    at == |s| || s[at] == '/'
  }

  /** `p` begins `s`, as whole components. */
  predicate StartsIn(p: string, s: string) { p <= s && Ends(s, |p|) }

  /** `p` is somewhere in `s`, as whole components. */
  predicate OccursIn(p: string, s: string) { exists i | 0 <= i <= |s| :: IsFront(s[..i]) && StartsIn(p, s[i..]) }

  /** How a glob treats text without wildcards, and the two recursive wildcards around it. */
  ghost predicate Literally(glob: Glob, p: string) {
    && (forall s :: glob(p, s) <==> s == p)
    && (forall s | Trimmed(s) :: glob(p + "/**", s) <==> exists t: string :: s == p + "/" + t)
    && (forall s :: glob("**/" + p, s) <==> exists front: string :: IsFront(front) && s == front + p)
    && (forall s | Trimmed(s) ::
          glob("**/" + p + "/**", s) <==>
          exists front: string, t: string :: IsFront(front) && s == front + (p + "/" + t))
  }

  /** Without wildcards, a bare name excludes each file or directory of that name at every depth, with all
      below; a name with a slash only that one path, with all below; and an empty name nothing. */
  lemma LiteralPattern(pattern: string, f: Filter, glob: Glob, s: string)
    requires Compiled([pattern], f) && Literally(glob, TrimSlashes(pattern)) && Trimmed(s)
    ensures var p := TrimSlashes(pattern);
            Matches(f, glob, s) <==> p != "" && if '/' in p then StartsIn(p, s) else OccursIn(p, s)
  {
    hide Literally, TrimSlashes, StartsIn, OccursIn, Variants;
    var p := TrimSlashes(pattern);
    MatchesVariant(pattern, f, glob, s);
    VariantsAre(pattern, glob, s);
    StartsLiterally(p, glob, s);
    OccursLiterally(p, glob, s);
    if StartsIn(p, s) { StartOccurs(p, s); }
  }

  lemma MatchesVariant(pattern: string, f: Filter, glob: Glob, s: string)
    requires Compiled([pattern], f)
    ensures Matches(f, glob, s) <==> exists g | g in Variants(pattern) :: glob(g, s)
  {
    hide Variants;
    assert forall g :: IsVariant([pattern], g) <==> g in Variants(pattern) by { assert pattern in [pattern]; }
  }

  lemma VariantsAre(pattern: string, glob: Glob, s: string)
    ensures var p := TrimSlashes(pattern);
            (exists g | g in Variants(pattern) :: glob(g, s)) <==>
            p != "" && (glob(p, s) || glob(p + "/**", s)
                        || ('/' !in p && (glob("**/" + p, s) || glob("**/" + p + "/**", s))))
  {
    hide TrimSlashes;
    var p, vs := TrimSlashes(pattern), Variants(pattern);
    if p != "" {
      assert vs[0] in vs && vs[1] in vs && (|vs| == 4 ==> vs[2] in vs && vs[3] in vs);
      forall g | g in vs ensures g == vs[0] || g == vs[1] || (|vs| == 4 && (g == vs[2] || g == vs[3])) {
        var i :| 0 <= i < |vs| && vs[i] == g;
      }
    }
  }

  lemma StartOccurs(p: string, s: string)
    requires StartsIn(p, s)
    ensures OccursIn(p, s)
  {
    assert s[0..] == s && IsFront(s[..0]);
  }

  lemma StartsLiterally(p: string, glob: Glob, s: string)
    requires Literally(glob, p) && Trimmed(s)
    ensures glob(p, s) || glob(p + "/**", s) <==> StartsIn(p, s)
  {
    if StartsIn(p, s) && |p| < |s| {
      var t := s[|p| + 1..];
      assert s == p + "/" + t;
    }
  }

  lemma OccursLiterally(p: string, glob: Glob, s: string)
    requires Literally(glob, p) && Trimmed(s)
    ensures glob("**/" + p, s) || glob("**/" + p + "/**", s) <==> OccursIn(p, s)
  {
    if OccursIn(p, s) {
      var i :| 0 <= i <= |s| && IsFront(s[..i]) && StartsIn(p, s[i..]);
      AfterFront(p, glob, s, i);
    }
    if glob("**/" + p, s) {
      var front: string :| IsFront(front) && s == front + p;
      OccursAfter(p, s, front, p);
    }
    if glob("**/" + p + "/**", s) {
      var front: string, t: string :| IsFront(front) && s == front + (p + "/" + t);
      OccursAfter(p, s, front, p + "/" + t);
    }
  }

  lemma AfterFront(p: string, glob: Glob, s: string, i: nat)
    requires Literally(glob, p) && Trimmed(s) && i <= |s| && IsFront(s[..i]) && StartsIn(p, s[i..])
    ensures glob("**/" + p, s) || glob("**/" + p + "/**", s)
  {
    hide IsFront, Literally, Trimmed;
    var front, rest := s[..i], s[i..];
    assert s == front + rest;
    if |rest| > |p| {
      var t := rest[|p| + 1..];
      assert rest == p + "/" + t;
      FrontThenBelow(p, glob, s, front, t);
    } else {
      assert rest == p;
      FrontThenItself(p, glob, s, front);
    }
  }

  lemma FrontThenItself(p: string, glob: Glob, s: string, front: string)
    requires Literally(glob, p) && IsFront(front) && s == front + p
    ensures glob("**/" + p, s)
  {
    hide IsFront;
  }

  lemma FrontThenBelow(p: string, glob: Glob, s: string, front: string, t: string)
    requires Literally(glob, p) && Trimmed(s) && IsFront(front) && s == front + (p + "/" + t)
    ensures glob("**/" + p + "/**", s)
  {
    hide IsFront, Trimmed;
  }

  lemma OccursAfter(p: string, s: string, front: string, rest: string)
    requires IsFront(front) && s == front + rest && StartsIn(p, rest)
    ensures OccursIn(p, s)
  {
    assert s[..|front|] == front && s[|front|..] == rest;
  }
}
