/** The two Spring utilities the change handler is built on, specified here rather than
    re-derived: `PatternMatchUtils.simpleMatch`, a glob where `*` matches any run of
    characters, and `PropertyPlaceholderHelper.replacePlaceholders` configured with prefix
    `${`, suffix `}`, value separator `:` and unresolvable placeholders ignored. */
module SpringSupport {
  import opened Wrappers
  import opened JavaStrings

  const PlaceholderPrefix: string := "${"
  const PlaceholderSuffix: char := '}'
  const ValueSeparator: char := ':'

  /** `PatternMatchUtils.simpleMatch(pattern, s)`: `*` matches any (possibly empty) run
      of characters, every other character matches itself. */
  predicate SimpleMatch(pattern: string, s: string)
    decreases |pattern| + |s|
  {
    if |pattern| == 0 then |s| == 0
    else if pattern[0] == '*' then
      SimpleMatch(pattern[1..], s) || (|s| > 0 && SimpleMatch(pattern, s[1..]))
    else
      |s| > 0 && pattern[0] == s[0] && SimpleMatch(pattern[1..], s[1..])
  }

  /** A pattern without `*` matches exactly itself. */
  lemma {:induction false} LiteralPatternMatchesOnlyItself(pattern: string, s: string)
    requires '*' !in pattern
    ensures SimpleMatch(pattern, s) <==> pattern == s
    decreases |pattern|
  {
    if |pattern| > 0 && |s| > 0 {
      assert pattern[0] in pattern;
      assert forall c :: c in pattern[1..] ==> c in pattern;
      LiteralPatternMatchesOnlyItself(pattern[1..], s[1..]);
      if pattern == s {
        assert pattern[1..] == s[1..];
      } else if pattern[0] == s[0] {
        assert pattern == [pattern[0]] + pattern[1..] && s == [s[0]] + s[1..];
      }
    }
  }

  /** A trailing `*` matches any rest: `prefix*` matches exactly the strings starting
      with a literal `prefix`. */
  lemma {:induction false} PrefixPatternMatchesExtensions(prefix: string, s: string)
    requires '*' !in prefix
    ensures SimpleMatch(prefix + "*", s) <==> StartsWith(s, prefix)
    decreases |prefix|
  {
    if |prefix| == 0 {
      assert prefix + "*" == "*";
      StarMatchesEverything(s);
    } else {
      assert (prefix + "*")[1..] == prefix[1..] + "*";
      assert prefix[0] in prefix;
      assert forall c :: c in prefix[1..] ==> c in prefix;
      if |s| > 0 {
        PrefixPatternMatchesExtensions(prefix[1..], s[1..]);
        if StartsWith(s, prefix) {
          assert s[1..][..|prefix| - 1] == s[..|prefix|][1..];
        }
      }
    }
  }

  /** The pattern `*` matches every string. */
  lemma {:induction false} StarMatchesEverything(s: string)
    ensures SimpleMatch("*", s)
    decreases |s|
  {
    assert "*"[1..] == "";
    if |s| > 0 {
      StarMatchesEverything(s[1..]);
    }
  }

  /** The source placeholders are resolved against: `props` first, then `env`
      (a `Properties` map alone is a resolver whose `env` is empty). */
  datatype Resolver = Resolver(props: map<string, string>, env: map<string, string>) {
    function Lookup(name: string): (v: Option<string>)
      ensures name in props ==> v == Some(props[name])
      ensures name !in props && name in env ==> v == Some(env[name])
      ensures v == None <==> name !in props && name !in env
    {
      if name in props then Some(props[name])
      else if name in env then Some(env[name])
      else None
    }
  }

  /** The name a placeholder body refers to: the text before its first `:`. */
  function NameOf(body: string): (name: string)
    ensures ValueSeparator !in name
    ensures StartsWith(body, name)
    ensures name == body || body[|name|] == ValueSeparator
  {
    var sep := IndexOf(body, ValueSeparator);
    if sep < 0 then body else body[..sep]
  }

  /** What one placeholder body `name[:default]` stands for: the resolved `name`, else
      the default when one is given, else nothing (the placeholder stays as written). */
  function ResolveBody(body: string, r: Resolver): (v: Option<string>)
    ensures r.Lookup(NameOf(body)).Some? ==> v == r.Lookup(NameOf(body))
    ensures r.Lookup(NameOf(body)).None? ==>
              (v.Some? <==> ValueSeparator in body)
    ensures v.Some? && r.Lookup(NameOf(body)).None? ==>
              body == NameOf(body) + [ValueSeparator] + v.value
  {
    var sep := IndexOf(body, ValueSeparator);
    var name := if sep < 0 then body else body[..sep];
    match r.Lookup(name)
    case Some(v) => Some(v)
    case None =>
      if sep < 0 then None
      else
        assert body == body[..sep] + [ValueSeparator] + body[sep + 1..];
        Some(body[sep + 1..])
  }

  /** The bodies of the placeholders of `s`, left to right: each `${` up to the
      first `}` after it. A `${` with no closing `}` ends the scan. */
  function Bodies(s: string): (bodies: seq<string>)
    ensures |bodies| == 0 <==> !HasPlaceholder(s)
    decreases |s|
  {
    if |s| < 2 then []
    else if s[0] == '$' && s[1] == '{' then
      var j := IndexOf(s[2..], PlaceholderSuffix);
      if j < 0 then [] else [s[2..2 + j]] + Bodies(s[3 + j..])
    else Bodies(s[1..])
  }

  /** `s` holds at least one complete `${...}`. */
  predicate HasPlaceholder(s: string)
    decreases |s|
  {
    if |s| < 2 then false
    else if s[0] == '$' && s[1] == '{' then PlaceholderSuffix in s[2..]
    else HasPlaceholder(s[1..])
  }

  /** `PropertyPlaceholderHelper.replacePlaceholders(s, r)` with unresolvable
      placeholders ignored: every `${name[:default]}` whose body resolves is replaced by
      its value, every other one is kept verbatim; text outside placeholders is kept. */
  function Expand(s: string, r: Resolver): string
    decreases |s|
  {
    if |s| < 2 then s
    else
      var step := ScanStep(s, r);
      step.0 + Expand(s[step.1..], r)
  }

  /** One step of the scan at the start of `s`: the text it produces and how many
      characters it consumes. A complete placeholder becomes its replacement; a `${`
      without a closing `}` ends the scan with the rest of the text kept; any other
      character is kept. */
  function ScanStep(s: string, r: Resolver): (step: (string, nat))
    requires |s| >= 2
    ensures 1 <= step.1 <= |s|
  {
    if s[0] == '$' && s[1] == '{' then
      var j := IndexOf(s[2..], PlaceholderSuffix);
      if j < 0 then (s, |s|) else (Replacement(s[2..2 + j], s[..3 + j], r), 3 + j)
    else ([s[0]], 1)
  }

  /** What one placeholder `written` with body `body` becomes: the body's value when it
      resolves, the placeholder as written otherwise. */
  function Replacement(body: string, written: string, r: Resolver): string {
    match ResolveBody(body, r)
    case Some(v) => v
    case None => written
  }

  /** Text without `${` is returned unchanged. */
  lemma {:induction false} ExpandWithoutPrefixIsIdentity(s: string, r: Resolver)
    requires !Contains(s, PlaceholderPrefix)
    ensures Expand(s, r) == s
    decreases |s|
  {
    if |s| >= 2 {
      ExpandWithoutPrefixIsIdentity(s[1..], r);
      assert s == [s[0]] + s[1..];
    }
  }

  /** No body in `bodies` resolves against `r`. */
  predicate NoneResolves(bodies: seq<string>, r: Resolver) {
    forall i :: 0 <= i < |bodies| ==> ResolveBody(bodies[i], r) == None
  }

  /** Unresolvable placeholders are ignored: when no body of `s` resolves, the
      expansion is `s` itself. */
  lemma {:induction false} ExpandKeepsUnresolvable(s: string, r: Resolver)
    requires NoneResolves(Bodies(s), r)
    ensures Expand(s, r) == s
    decreases |s|
  {
    if |s| >= 2 {
      if s[0] == '$' && s[1] == '{' {
        var j := IndexOf(s[2..], PlaceholderSuffix);
        if j >= 0 {
          BodiesAtPlaceholder(s, j);
          NoneResolvesSplit(Bodies(s), r);
          ExpandKeepsUnresolvable(s[3 + j..], r);
          KeepUnresolvedHead(s, r, j);
        }
      } else {
        BodiesOutsidePlaceholder(s);
        ExpandKeepsUnresolvable(s[1..], r);
        KeepPlainHead(s, r);
      }
    }
  }

  /** A leading unresolvable placeholder before a tail that expands to itself: the
      whole text expands to itself. */
  lemma KeepUnresolvedHead(s: string, r: Resolver, j: int)
    requires |s| >= 2 && s[0] == '$' && s[1] == '{'
    requires j == IndexOf(s[2..], PlaceholderSuffix) && j >= 0
    requires ResolveBody(s[2..2 + j], r) == None
    requires Expand(s[3 + j..], r) == s[3 + j..]
    ensures Expand(s, r) == s
  {
    ExpandSkipsUnresolved(s, r, j);
    SplitJoin(s, 3 + j);
  }

  /** Cutting a text and joining the pieces gives it back. */
  lemma SplitJoin(s: string, k: nat)
    requires k <= |s|
    ensures s[..k] + s[k..] == s
  {
  }

  /** A leading plain character before a tail that expands to itself: the whole text
      expands to itself. */
  lemma KeepPlainHead(s: string, r: Resolver)
    requires |s| >= 2 && !(s[0] == '$' && s[1] == '{')
    requires Expand(s[1..], r) == s[1..]
    ensures Expand(s, r) == s
  {
    ExpandOutsidePlaceholder(s, r);
    var tail := s[1..];
    assert Expand(s, r) == [s[0]] + Expand(tail, r) == [s[0]] + tail;
    assert [s[0]] + tail == s;
  }

  /** The bodies of a text opening with a complete placeholder: its body, then the
      bodies after its `}`. */
  lemma BodiesAtPlaceholder(s: string, j: int)
    requires |s| >= 2 && s[0] == '$' && s[1] == '{'
    requires j == IndexOf(s[2..], PlaceholderSuffix) && j >= 0
    ensures Bodies(s) == [s[2..2 + j]] + Bodies(s[3 + j..])
  {
  }

  /** A text not opening with `${` has the bodies of its tail. */
  lemma BodiesOutsidePlaceholder(s: string)
    requires |s| >= 2 && !(s[0] == '$' && s[1] == '{')
    ensures Bodies(s) == Bodies(s[1..])
  {
  }

  /** A text not opening with `${` expands to its first character and its expanded
      tail. */
  lemma ExpandOutsidePlaceholder(s: string, r: Resolver)
    requires |s| >= 2 && !(s[0] == '$' && s[1] == '{')
    ensures Expand(s, r) == [s[0]] + Expand(s[1..], r)
  {
    ExpandUnfold(s, r);
  }

  /** Splitting off the first body of an unresolvable list. */
  lemma NoneResolvesSplit(bodies: seq<string>, r: Resolver)
    requires |bodies| > 0 && NoneResolves(bodies, r)
    ensures ResolveBody(bodies[0], r) == None && NoneResolves(bodies[1..], r)
  {
    forall i | 0 <= i < |bodies[1..]| ensures ResolveBody(bodies[1..][i], r) == None {
      assert bodies[1..][i] == bodies[i + 1];
    }
  }

  /** One step of `Expand` over a leading placeholder that does not resolve. */
  lemma ExpandSkipsUnresolved(s: string, r: Resolver, j: int)
    requires |s| >= 2 && s[0] == '$' && s[1] == '{'
    requires j == IndexOf(s[2..], PlaceholderSuffix) && j >= 0
    requires ResolveBody(s[2..2 + j], r) == None
    ensures Expand(s, r) == s[..3 + j] + Expand(s[3 + j..], r)
  {
    ExpandAtPlaceholder(s, r, j);
  }

  /** One step of `Expand` over a leading placeholder, resolved or not: only what the
      resolver says about its body matters. */
  lemma ExpandAtPlaceholder(s: string, r: Resolver, j: int)
    requires |s| >= 2 && s[0] == '$' && s[1] == '{'
    requires j == IndexOf(s[2..], PlaceholderSuffix) && j >= 0
    ensures Expand(s, r) == Replacement(s[2..2 + j], s[..3 + j], r) + Expand(s[3 + j..], r)
  {
    ExpandUnfold(s, r);
    ScanAtPlaceholder(s, r, j);
  }

  /** `Expand` unfolded once: the first step's text, then the expansion of what it left. */
  lemma ExpandUnfold(s: string, r: Resolver)
    requires |s| >= 2
    ensures Expand(s, r) == ScanStep(s, r).0 + Expand(s[ScanStep(s, r).1..], r)
  {
  }

  /** The first step over a complete leading placeholder consumes it whole. */
  lemma ScanAtPlaceholder(s: string, r: Resolver, j: int)
    requires |s| >= 2 && s[0] == '$' && s[1] == '{'
    requires j == IndexOf(s[2..], PlaceholderSuffix) && j >= 0
    ensures ScanStep(s, r) == (Replacement(s[2..2 + j], s[..3 + j], r), 3 + j)
  {
  }

  /** The resolvers agree on the name of every body of `bodies`. */
  predicate AgreeOn(bodies: seq<string>, r1: Resolver, r2: Resolver) {
    forall i :: 0 <= i < |bodies| ==> r1.Lookup(NameOf(bodies[i])) == r2.Lookup(NameOf(bodies[i]))
  }

  /** Splitting off the first body of a list both resolvers agree on. */
  lemma AgreeOnSplit(bodies: seq<string>, r1: Resolver, r2: Resolver)
    requires |bodies| > 0 && AgreeOn(bodies, r1, r2)
    ensures ResolveBody(bodies[0], r1) == ResolveBody(bodies[0], r2)
    ensures AgreeOn(bodies[1..], r1, r2)
  {
    forall i | 0 <= i < |bodies[1..]|
      ensures r1.Lookup(NameOf(bodies[1..][i])) == r2.Lookup(NameOf(bodies[1..][i]))
    {
      assert bodies[1..][i] == bodies[i + 1];
    }
  }

  /** The expansion depends only on what the resolver says about the names `s` refers
      to: two resolvers that agree on those names expand `s` alike. */
  lemma {:induction false} ExpandDependsOnlyOnNames(s: string, r1: Resolver, r2: Resolver)
    requires forall i :: 0 <= i < |Bodies(s)| ==>
               r1.Lookup(NameOf(Bodies(s)[i])) == r2.Lookup(NameOf(Bodies(s)[i]))
    ensures Expand(s, r1) == Expand(s, r2)
    decreases |s|
  {
    assert AgreeOn(Bodies(s), r1, r2);
    if |s| >= 2 {
      if s[0] == '$' && s[1] == '{' {
        var j := IndexOf(s[2..], PlaceholderSuffix);
        if j >= 0 {
          BodiesAtPlaceholder(s, j);
          AgreeOnSplit(Bodies(s), r1, r2);
          ExpandDependsOnlyOnNames(s[3 + j..], r1, r2);
          ExpandAtPlaceholder(s, r1, j);
          ExpandAtPlaceholder(s, r2, j);
        }
      } else {
        BodiesOutsidePlaceholder(s);
        ExpandDependsOnlyOnNames(s[1..], r1, r2);
        ExpandOutsidePlaceholder(s, r1);
        ExpandOutsidePlaceholder(s, r2);
      }
    }
  }

  /** A complete placeholder is found by a `${` scan: `HasPlaceholder` implies the
      text contains `${`. */
  lemma {:induction false} PlaceholderNeedsPrefix(s: string)
    requires HasPlaceholder(s)
    ensures Contains(s, PlaceholderPrefix)
    decreases |s|
  {
    if s[0] == '$' && s[1] == '{' {
      assert StartsWith(s, PlaceholderPrefix);
    } else {
      PlaceholderNeedsPrefix(s[1..]);
    }
  }
}
