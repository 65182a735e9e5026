/** The change handler of the client: it remembers which consumer bindings depend on
    which configuration key or `*` pattern, computes which keys changed between two
    snapshots, and selects the value each affected binding receives.

    A snapshot (`java.util.Properties`) is a `map<string, string>`; a binding (a Spring
    `DependencyDescriptor`) is an opaque id; delivering a value to a binding (the
    reflective field or setter write) is an outcome supplied by the caller. */
module ChangeHandler {
  import opened Wrappers
  import opened JavaStrings
  import opened SpringSupport
  import opened Enumerations

  type Props = map<string, string>

  /** One consumer of a configuration value: a field or setter of some bean. */
  datatype Binding = Binding(id: nat)

  /** Key or pattern to the bindings that depend on it (`keyToDescriptor`). */
  type Registry = map<string, set<Binding>>

  /** The state the handler accumulates while beans are created: the binding registry and
      the `*` patterns seen in `${...}` expressions (`patternLikeKeys`). */
  datatype Handler = Handler(registry: Registry, patterns: set<string>)

  const EmptyHandler := Handler(map[], {})

  // ---------------------------------------------------------------------------
  // Registry (putDependencyDescriptor, saveDependency)
  // ---------------------------------------------------------------------------

  /** `putDependencyDescriptor(map, key, set)`: add `bindings` to those of `key`,
      creating the entry when it is absent. */
  function AddAll(reg: Registry, key: string, bindings: set<Binding>): (r: Registry)
    ensures r.Keys == reg.Keys + {key}
    ensures key in reg ==> r[key] == reg[key] + bindings
    ensures key !in reg ==> r[key] == bindings
    ensures forall k :: k in reg && k != key ==> r[k] == reg[k]
  {
    if key in reg then reg[key := reg[key] + bindings] else reg[key := bindings]
  }

  /** `putDependencyDescriptor(map, key, descriptor)`: register one binding under `key`. */
  function Register(reg: Registry, key: string, b: Binding): (r: Registry)
    ensures r.Keys == reg.Keys + {key}
    ensures r[key] == (if key in reg then reg[key] else {}) + {b}
    ensures forall k :: k in reg && k != key ==> r[k] == reg[k]
  {
    AddAll(reg, key, {b})
  }

  /** Registering a binding that is already registered under the key changes nothing:
      bindings form a set. */
  lemma RegisterIsIdempotent(reg: Registry, key: string, b: Binding)
    ensures Register(Register(reg, key, b), key, b) == Register(reg, key, b)
  {
    var once := Register(reg, key, b);
    var twice := Register(once, key, b);
    assert twice.Keys == once.Keys;
    assert twice[key] == once[key];
  }

  /** The names a `@Value` expression depends on, as `saveDependency` extracts them:
      for each placeholder, the text before its first `:`. */
  function DependencyNames(expr: string): (names: seq<string>)
    ensures |names| == |Bodies(expr)|
    ensures forall i :: 0 <= i < |names| ==>
              && ValueSeparator !in names[i]
              && StartsWith(Bodies(expr)[i], names[i])
              && (names[i] == Bodies(expr)[i] || Bodies(expr)[i][|names[i]|] == ValueSeparator)
  {
    var bodies := Bodies(expr);
    seq(|bodies|, i requires 0 <= i < |bodies| => NameOf(bodies[i]))
  }

  /** Register `b` under every name in `names`, left to right. */
  function RegisterAll(reg: Registry, names: seq<string>, b: Binding): (r: Registry)
    ensures forall k :: k in r <==> k in reg || k in names
    decreases |names|
  {
    if |names| == 0 then reg
    else
      assert forall k :: k in names <==> k == names[0] || k in names[1..];
      RegisterAll(Register(reg, names[0], b), names[1..], b)
  }

  /** Each name of `names` gains `b`; every other key keeps its bindings. */
  lemma {:induction false} RegisterAllValue(reg: Registry, names: seq<string>, b: Binding, k: string)
    requires k in RegisterAll(reg, names, b)
    ensures RegisterAll(reg, names, b)[k]
            == (if k in reg then reg[k] else {}) + (if k in names then {b} else {})
    decreases |names|
  {
    if |names| > 0 {
      assert k in names <==> k == names[0] || k in names[1..];
      RegisterAllValue(Register(reg, names[0], b), names[1..], b, k);
    }
  }

  /** `saveDependency(expr, b)`: `b` is registered under the name of every placeholder of
      `expr`, and nothing else in the registry changes. */
  function SaveDependency(reg: Registry, expr: string, b: Binding): (r: Registry)
    ensures forall k :: k in r <==> k in reg || k in DependencyNames(expr)
    ensures forall k :: k in r ==>
              r[k] == (if k in reg then reg[k] else {})
                      + (if k in DependencyNames(expr) then {b} else {})
  {
    var names := DependencyNames(expr);
    var r := RegisterAll(reg, names, b);
    assert forall k :: k in r ==>
             r[k] == (if k in reg then reg[k] else {}) + (if k in names then {b} else {}) by {
      forall k | k in r
        ensures r[k] == (if k in reg then reg[k] else {}) + (if k in names then {b} else {})
      {
        RegisterAllValue(reg, names, b, k);
      }
    }
    r
  }

  /** The only placeholder of `${body}` is `body` when `body` holds no `}`. */
  lemma SinglePlaceholder(body: string)
    requires '}' !in body
    ensures Bodies("${" + body + "}") == [body]
  {
    var expr := "${" + body + "}";
    assert expr[2..] == body + "}";
    var j := IndexOf(expr[2..], '}');
    assert j == |body| by {
      assert expr[2..][|body|] == '}';
      assert expr[2..][..|body|] == body;
    }
    assert expr[3 + j..] == [];
    assert expr[2..2 + j] == body;
  }

  /** The name of `name:default` is `name` when `name` holds no `:`. */
  lemma NameBeforeSeparator(name: string, default: string)
    requires ':' !in name
    ensures NameOf(name + ":" + default) == name
  {
    var body := name + ":" + default;
    assert IndexOf(body, ':') == |name| by {
      assert body[|name|] == ':';
      assert body[..|name|] == name;
    }
  }

  /** Registering under a one-name list is registering under that name. */
  lemma RegisterAllSingle(reg: Registry, name: string, b: Binding)
    ensures RegisterAll(reg, [name], b) == Register(reg, name, b)
  {
    var r, q := RegisterAll(reg, [name], b), Register(reg, name, b);
    forall k | k in r ensures r[k] == q[k] {
      RegisterAllValue(reg, [name], b, k);
    }
    assert r.Keys == q.Keys;
  }

  /** `${name:default}` read as `${` around the body `name:default`. */
  lemma WrapRegroups(name: string, default: string)
    ensures "${" + name + ":" + default + "}" == "${" + (name + ":" + default) + "}"
  {
  }

  /** A `${name:default}` expression registers its binding under `name` alone. */
  lemma DefaultValueRegistersName(reg: Registry, name: string, default: string, b: Binding)
    requires '}' !in name && ':' !in name && '}' !in default
    ensures SaveDependency(reg, "${" + name + ":" + default + "}", b)
         == Register(reg, name, b)
  {
    var body := name + ":" + default;
    SinglePlaceholder(body);
    NameBeforeSeparator(name, default);
    var expr := "${" + body + "}";
    WrapRegroups(name, default);
    assert DependencyNames(expr) == [name];
    assert SaveDependency(reg, expr, b) == RegisterAll(reg, [name], b);
    RegisterAllSingle(reg, name, b);
  }

  // ---------------------------------------------------------------------------
  // Pattern registration (RegexStringValueResolver.resolveStringValue)
  // ---------------------------------------------------------------------------

  /** `isSimpleLikePattern`: the text holds a `*`. */
  predicate IsSimpleLikePattern(s: string) {
    '*' in s
  }

  /** The pattern a `${...*...}` expression registers: the text between `${` and the
      last character. */
  function PatternOf(expr: string): (p: string)
    requires StartsWith(expr, PlaceholderPrefix) && IsSimpleLikePattern(expr)
    ensures expr == PlaceholderPrefix + p + [expr[|expr| - 1]]
  {
    assert |expr| >= 3;
    assert expr == expr[..2] + expr[2..|expr| - 1] + [expr[|expr| - 1]];
    expr[2..|expr| - 1]
  }

  /** A Spring `StringValueResolver`: the value one configuration text resolves to. */
  type ValueResolver = string -> string

  /** `InheritedValueResolver.resolveStringValue`: placeholders expanded against the
      snapshot, then the environment, unresolvable ones left in place. */
  function Inherited(props: Props, env: Props): ValueResolver {
    s => Expand(s, Resolver(props, env))
  }

  /** The result of resolving one embedded `@Value` string. */
  datatype Resolved = Resolved(handler: Handler, value: string)

  /** `RegexStringValueResolver.resolveStringValue(expr)`: an expression that starts with
      `${` and holds a `*` registers its pattern and resolves to the aggregate JSON of the
      matching keys of `allProps` (listed in `order`), each value passed through `orig`;
      any other expression changes no state and is handed to `orig` unchanged. `orig` is
      the resolver Spring had installed first, or the snapshot-only expander when it had
      none. */
  function ResolveStringValue(h: Handler, expr: string, allProps: Props, order: seq<string>,
                              orig: ValueResolver): (r: Resolved)
    requires IsEnumeration(order, allProps.Keys)
    ensures r.handler.registry == h.registry
    ensures StartsWith(expr, PlaceholderPrefix) && IsSimpleLikePattern(expr) ==>
              var p := PatternOf(expr);
              var m := Matching(order, allProps, p);
              && r.handler.patterns == h.patterns + {p}
              && (forall k :: k in m <==> k in allProps && SimpleMatch(p, k))
              && Distinct(m)
              && r.value == (if |m| == 0 then "}" else "{" + JoinMembers(m, allProps, orig) + "}")
    ensures !(StartsWith(expr, PlaceholderPrefix) && IsSimpleLikePattern(expr)) ==>
              r.handler == h && r.value == orig(expr)
  {
    if StartsWith(expr, PlaceholderPrefix) && IsSimpleLikePattern(expr) then
      var p := PatternOf(expr);
      MapJsonShape(order, allProps, p, orig);
      Resolved(h.(patterns := h.patterns + {p}), GetMapJson(order, allProps, p, orig))
    else
      Resolved(h, orig(expr))
  }

  /** A pattern expression `${p}` is recorded under the same text by both registration
      paths: `saveDependency` files its binding under `p` and `resolveStringValue` adds
      `p` to the patterns, so a change matching `p` reaches that binding. */
  lemma {:induction false} PatternRegistrationsAgree(h: Handler, p: string, b: Binding,
                                                     allProps: Props, order: seq<string>,
                                                     orig: ValueResolver)
    requires '*' in p && '}' !in p && ':' !in p
    requires IsEnumeration(order, allProps.Keys)
    ensures var expr := "${" + p + "}";
            var r := ResolveStringValue(h, expr, allProps, order, orig);
            p in r.handler.patterns && p in SaveDependency(h.registry, expr, b)
            && b in SaveDependency(h.registry, expr, b)[p]
  {
    var expr := "${" + p + "}";
    assert StartsWith(expr, PlaceholderPrefix) by { assert expr[..2] == "${"; }
    assert IsSimpleLikePattern(expr) by {
      var i :| 0 <= i < |p| && p[i] == '*';
      assert expr[i + 2] == '*';
    }
    assert PatternOf(expr) == p;
    SinglePlaceholder(p);
    assert NameOf(p) == p;
    assert DependencyNames(expr) == [p];
  }

  // ---------------------------------------------------------------------------
  // Aggregate JSON of the keys matching a pattern (getMapJson)
  // ---------------------------------------------------------------------------

  /** How a resolved value is written into the aggregate: raw when it starts with `{` or
      `[`, otherwise between double quotes. */
  function JsonValue(v: string): (j: string)
    ensures j == v <==> |v| > 0 && (v[0] == '{' || v[0] == '[')
    ensures j != v ==> |j| == |v| + 2 && j[0] == '"' && j[|j| - 1] == '"' && j[1..|j| - 1] == v
  {
    if |v| > 0 && (v[0] == '{' || v[0] == '[') then v else "\"" + v + "\""
  }

  /** One `"name":value` member of the aggregate. */
  function JsonMember(name: string, props: Props, r: ValueResolver): string
    requires name in props
  {
    "\"" + name + "\":" + JsonValue(r(props[name]))
  }

  /** The string builder of `getMapJson` after visiting `order`, starting from `acc`:
      the first member is opened with `{`, later ones with `,`. */
  function BuildJson(order: seq<string>, props: Props, pattern: string, r: ValueResolver,
                     acc: string): string
    decreases |order|
  {
    if |order| == 0 then acc
    else
      var name := order[0];
      if name in props && SimpleMatch(pattern, name) then
        var opener := if |acc| > 0 then "," else "{";
        BuildJson(order[1..], props, pattern, r, acc + opener + JsonMember(name, props, r))
      else BuildJson(order[1..], props, pattern, r, acc)
  }

  /** `getMapJson(props, pattern, resolver)`, visiting the keys in `order`. */
  function GetMapJson(order: seq<string>, props: Props, pattern: string, r: ValueResolver): string
  {
    BuildJson(order, props, pattern, r, "") + "}"
  }

  /** The keys of `order` that are in `props` and match `pattern`, in order. */
  function Matching(order: seq<string>, props: Props, pattern: string): (m: seq<string>)
    ensures forall k :: k in m <==> k in order && k in props && SimpleMatch(pattern, k)
    ensures |m| <= |order|
    decreases |order|
  {
    if |order| == 0 then []
    else if order[0] in props && SimpleMatch(pattern, order[0]) then
      [order[0]] + Matching(order[1..], props, pattern)
    else Matching(order[1..], props, pattern)
  }

  /** The members joined with `,`. */
  function JoinMembers(names: seq<string>, props: Props, r: ValueResolver): string
    requires forall k :: k in names ==> k in props
    decreases |names|
  {
    if |names| == 0 then ""
    else if |names| == 1 then JsonMember(names[0], props, r)
    else JsonMember(names[0], props, r) + "," + JoinMembers(names[1..], props, r)
  }

  /** One step of the builder: a matching key appends its member, any other key is
      skipped. */
  lemma BuildJsonStep(order: seq<string>, props: Props, pattern: string, r: ValueResolver, acc: string)
    requires |order| > 0
    ensures var name := order[0];
            BuildJson(order, props, pattern, r, acc)
              == if name in props && SimpleMatch(pattern, name)
                 then BuildJson(order[1..], props, pattern, r,
                                acc + (if |acc| > 0 then "," else "{") + JsonMember(name, props, r))
                 else BuildJson(order[1..], props, pattern, r, acc)
  {
  }

  /** One step of `Matching`. */
  lemma MatchingStep(order: seq<string>, props: Props, pattern: string)
    requires |order| > 0
    ensures Matching(order, props, pattern)
              == if order[0] in props && SimpleMatch(pattern, order[0])
                 then [order[0]] + Matching(order[1..], props, pattern)
                 else Matching(order[1..], props, pattern)
  {
  }

  /** Joining a member in front of a list: alone it is just the member, before a
      non-empty list it is followed by `,`. */
  lemma JoinMembersCons(name: string, rest: seq<string>, props: Props, r: ValueResolver)
    requires name in props && forall k :: k in rest ==> k in props
    ensures JoinMembers([name] + rest, props, r)
              == JsonMember(name, props, r) + (if |rest| == 0 then "" else "," + JoinMembers(rest, props, r))
  {
    assert ([name] + rest)[1..] == rest;
  }

  /** The text after a non-empty buffer once a member and the rest are written. */
  lemma MemberThenRest(acc: string, member: string, tail: string)
    ensures acc + "," + member + tail == acc + ("," + (member + tail))
  {
  }

  /** The buffer after the first member. */
  lemma OpenedBuffer(member: string)
    ensures "" + (if |""| > 0 then "," else "{") + member == "{" + member
  {
  }

  /** The text after `{` once a member and the rest are written. */
  lemma OpenThenRest(member: string, tail: string)
    ensures "{" + member + tail == "{" + (member + tail)
  {
  }

  /** The builder continued from a non-empty prefix appends `,member` per match. */
  lemma {:induction false} BuildJsonContinues(order: seq<string>, props: Props, pattern: string,
                                              r: ValueResolver, acc: string)
    requires |acc| > 0
    ensures var m := Matching(order, props, pattern);
            BuildJson(order, props, pattern, r, acc)
              == acc + (if |m| == 0 then "" else "," + JoinMembers(m, props, r))
    decreases |order|
  {
    if |order| > 0 {
      var name := order[0];
      var m' := Matching(order[1..], props, pattern);
      BuildJsonStep(order, props, pattern, r, acc);
      MatchingStep(order, props, pattern);
      if name in props && SimpleMatch(pattern, name) {
        var member := JsonMember(name, props, r);
        var tail := if |m'| == 0 then "" else "," + JoinMembers(m', props, r);
        BuildJsonContinues(order[1..], props, pattern, r, acc + "," + member);
        JoinMembersCons(name, m', props, r);
        MemberThenRest(acc, member, tail);
      } else {
        BuildJsonContinues(order[1..], props, pattern, r, acc);
      }
    }
  }

  /** The builder from an empty buffer opens with `{` at the first match. */
  lemma {:induction false} BuildJsonFromEmpty(order: seq<string>, props: Props, pattern: string,
                                              r: ValueResolver)
    ensures var m := Matching(order, props, pattern);
            BuildJson(order, props, pattern, r, "")
              == (if |m| == 0 then "" else "{" + JoinMembers(m, props, r))
    decreases |order|
  {
    if |order| > 0 {
      var name := order[0];
      var m' := Matching(order[1..], props, pattern);
      BuildJsonStep(order, props, pattern, r, "");
      MatchingStep(order, props, pattern);
      if name in props && SimpleMatch(pattern, name) {
        var member := JsonMember(name, props, r);
        var tail := if |m'| == 0 then "" else "," + JoinMembers(m', props, r);
        var first := "" + (if |""| > 0 then "," else "{") + member;
        OpenedBuffer(member);
        BuildJsonContinues(order[1..], props, pattern, r, first);
        JoinMembersCons(name, m', props, r);
        OpenThenRest(member, tail);
      } else {
        BuildJsonFromEmpty(order[1..], props, pattern, r);
      }
    }
  }

  /** `getMapJson` is `{`, the `,`-separated members of exactly the matching keys (each
      once) and `}`; with no matching key it is the single character `}`. */
  lemma MapJsonShape(order: seq<string>, props: Props, pattern: string, r: ValueResolver)
    requires IsEnumeration(order, props.Keys)
    ensures var m := Matching(order, props, pattern);
            && (forall k :: k in m <==> k in props && SimpleMatch(pattern, k))
            && Distinct(m)
            && GetMapJson(order, props, pattern, r)
                 == (if |m| == 0 then "}" else "{" + JoinMembers(m, props, r) + "}")
  {
    BuildJsonFromEmpty(order, props, pattern, r);
    MatchingKeepsDistinct(order, props, pattern);
  }

  /** Filtering a list without repetitions keeps it without repetitions. */
  lemma {:induction false} MatchingKeepsDistinct(order: seq<string>, props: Props, pattern: string)
    requires Distinct(order)
    ensures Distinct(Matching(order, props, pattern))
    decreases |order|
  {
    if |order| > 0 {
      MatchingKeepsDistinct(order[1..], props, pattern);
      var m' := Matching(order[1..], props, pattern);
      assert order[0] !in m' by {
        assert order[0] !in order[1..];
      }
      var m := Matching(order, props, pattern);
      if order[0] in props && SimpleMatch(pattern, order[0]) {
        assert m == [order[0]] + m';
        forall i, j | 0 <= i < j < |m| ensures m[i] != m[j] {
          if i == 0 {
            assert m[0] == order[0];
            assert m[j] == m'[j - 1];
            assert m'[j - 1] in m';
          } else {
            assert m[i] == m'[i - 1] && m[j] == m'[j - 1];
            assert m'[i - 1] != m'[j - 1];
          }
        }
      }
    }
  }

  /** The aggregate always ends with `}`, and it opens with `{` exactly when some key
      matches. */
  lemma MapJsonBraces(order: seq<string>, props: Props, pattern: string, r: ValueResolver)
    requires IsEnumeration(order, props.Keys)
    ensures var j := GetMapJson(order, props, pattern, r);
            && j[|j| - 1] == '}'
            && (j == "}" <==> forall k :: k in props ==> !SimpleMatch(pattern, k))
            && (j[0] == '{' <==> exists k :: k in props && SimpleMatch(pattern, k))
  {
    MapJsonShape(order, props, pattern, r);
    var m := Matching(order, props, pattern);
    if |m| > 0 {
      assert m[0] in m;
    }
  }

  // ---------------------------------------------------------------------------
  // Value lookup for delivery (InheritedValueResolver)
  // ---------------------------------------------------------------------------

  /** `InheritedValueResolver.resolvePlaceholder(k)`: the snapshot's value, else the
      environment's. */
  function InheritedLookup(props: Props, env: Props, k: string): (v: Option<string>)
    ensures k in props ==> v == Some(props[k])
    ensures k !in props ==> v == (if k in env then Some(env[k]) else None)
  {
    Resolver(props, env).Lookup(k)
  }

  /** The snapshot shadows the environment: for a key the snapshot holds, no environment
      can change the outcome; for any other key the snapshot is irrelevant. */
  lemma MapShadowsEnvironment(props: Props, props': Props, env: Props, env': Props, k: string)
    ensures k in props ==> InheritedLookup(props, env, k) == InheritedLookup(props, env', k)
    ensures k !in props && k !in props' ==>
              InheritedLookup(props, env, k) == InheritedLookup(props', env, k)
  {
  }

  // ---------------------------------------------------------------------------
  // The diff (changeBeanProperties, lines 269-303)
  // ---------------------------------------------------------------------------

  /** A key of the new snapshot counts as changed when its raw text differs from the old
      one (or the old snapshot lacks it), or when the texts are equal, contain `${`, and
      expand differently against their own snapshots. */
  predicate ValueChanged(oldProps: Props, newProps: Props, k: string)
    requires k in newProps
  {
    if k in oldProps && newProps[k] == oldProps[k] then
      Contains(newProps[k], PlaceholderPrefix)
      && Expand(newProps[k], Resolver(newProps, map[]))
         != Expand(oldProps[k], Resolver(oldProps, map[]))
    else true
  }

  /** The changed keys: the changed keys of the new snapshot, plus every deleted key when
      the old snapshot is strictly larger than the new one. */
  function ChangedKeys(oldProps: Props, newProps: Props): (changed: set<string>)
    ensures changed <= oldProps.Keys + newProps.Keys
  {
    (set k | k in newProps && ValueChanged(oldProps, newProps, k))
    + (if |oldProps| > |newProps| then oldProps.Keys - newProps.Keys else {})
  }

  /** A snapshot compared with itself has no changed key. */
  lemma NoChangeAgainstItself(props: Props)
    ensures ChangedKeys(props, props) == {}
  {
  }

  /** Every key whose raw text differs, or that is new, is reported. */
  lemma RawDifferenceIsChange(oldProps: Props, newProps: Props, k: string)
    requires k in newProps && (k !in oldProps || oldProps[k] != newProps[k])
    ensures k in ChangedKeys(oldProps, newProps)
  {
  }

  /** A key with the same text on both sides is changed exactly when the text contains
      `${` and its expansions against the two snapshots differ. */
  lemma EqualTextChangesOnlyThroughExpansion(oldProps: Props, newProps: Props, k: string)
    requires k in newProps && k in oldProps && oldProps[k] == newProps[k]
    ensures k in ChangedKeys(oldProps, newProps) <==>
              Contains(newProps[k], PlaceholderPrefix)
              && Expand(newProps[k], Resolver(newProps, map[]))
                 != Expand(newProps[k], Resolver(oldProps, map[]))
  {
  }

  /** With the same text on both sides, a key whose placeholders all name keys on which
      the two snapshots agree (or which neither holds) is not reported. */
  lemma {:induction false} UnmovedReferencesAreNoChange(oldProps: Props, newProps: Props, k: string)
    requires k in newProps && k in oldProps && oldProps[k] == newProps[k]
    requires forall i :: 0 <= i < |Bodies(newProps[k])| ==>
               var n := NameOf(Bodies(newProps[k])[i]);
               (n in oldProps <==> n in newProps) && (n in oldProps ==> oldProps[n] == newProps[n])
    ensures k !in ChangedKeys(oldProps, newProps)
  {
    var v := newProps[k];
    var rNew := Resolver(newProps, map[]);
    var rOld := Resolver(oldProps, map[]);
    forall i | 0 <= i < |Bodies(v)|
      ensures rNew.Lookup(NameOf(Bodies(v)[i])) == rOld.Lookup(NameOf(Bodies(v)[i]))
    {
    }
    ExpandDependsOnlyOnNames(v, rNew, rOld);
  }

  /** Unresolvable placeholders are left in place: equal text whose placeholders resolve
      in neither snapshot (no such key, no default) is not reported. */
  lemma {:induction false} UnresolvableIsNoChange(oldProps: Props, newProps: Props, k: string)
    requires k in newProps && k in oldProps && oldProps[k] == newProps[k]
    requires NoneResolves(Bodies(newProps[k]), Resolver(newProps, map[]))
    requires NoneResolves(Bodies(newProps[k]), Resolver(oldProps, map[]))
    ensures k !in ChangedKeys(oldProps, newProps)
  {
    ExpandKeepsUnresolvable(newProps[k], Resolver(newProps, map[]));
    ExpandKeepsUnresolvable(newProps[k], Resolver(oldProps, map[]));
  }

  /** Deleted keys are reported exactly when the old snapshot is larger: a deletion
      offset by as many additions goes unreported. */
  lemma DeletionNeedsShrinking(oldProps: Props, newProps: Props, k: string)
    requires k in oldProps && k !in newProps
    ensures k in ChangedKeys(oldProps, newProps) <==> |oldProps| > |newProps|
  {
  }

  /** A deletion offset by an addition: `{a=1, b=2}` to `{a=1, c=3}` reports the new `c`
      but not the deleted `b`. */
  lemma DeletionOffsetByAddition()
    ensures ChangedKeys(map["a" := "1", "b" := "2"], map["a" := "1", "c" := "3"]) == {"c"}
  {
    var o := map["a" := "1", "b" := "2"];
    var n := map["a" := "1", "c" := "3"];
    assert "a" != "b" && "a" != "c";
    assert |o.Keys| == 2 && |n.Keys| == 2;
    assert !ValueChanged(o, n, "a") by {
      assert !Contains("1", PlaceholderPrefix);
    }
    assert ChangedKeys(o, n) == {"c"};
  }

  /** Between two non-empty snapshots, "no changed key" means the snapshots are equal. */
  lemma NoChangeMeansEqual(oldProps: Props, newProps: Props)
    requires |oldProps| > 0 && |newProps| > 0
    requires ChangedKeys(oldProps, newProps) == {}
    ensures oldProps == newProps
  {
    forall k | k in newProps ensures k in oldProps && oldProps[k] == newProps[k] {
      assert k !in ChangedKeys(oldProps, newProps);
    }
    var o, n := oldProps.Keys, newProps.Keys;
    assert n <= o;
    var deleted := if |oldProps| > |newProps| then o - n else {};
    assert deleted == {} by {
      forall d | d in deleted ensures d in ChangedKeys(oldProps, newProps) {
      }
    }
    if |oldProps| <= |newProps| {
      assert |o - n| == |o| - |n|;
      assert |o| == |oldProps| && |n| == |newProps|;
    }
    assert o - n == {};
    forall x | x in o ensures x in n {
      assert x !in o - n;
    }
  }

  /** The refresh from `oldProps` to `newProps` notifies nobody: one of the snapshots is
      empty, or no key changed. */
  predicate Quiet(oldProps: Props, newProps: Props) {
    |oldProps| == 0 || |newProps| == 0 || ChangedKeys(oldProps, newProps) == {}
  }

  /** Through a non-empty middle snapshot, two quiet refreshes make a quiet one. */
  lemma QuietIsTransitive(a: Props, b: Props, c: Props)
    requires |b| > 0 && Quiet(a, b) && Quiet(b, c)
    ensures Quiet(a, c)
  {
    if |a| > 0 && |c| > 0 {
      NoChangeMeansEqual(a, b);
      NoChangeMeansEqual(b, c);
      NoChangeAgainstItself(a);
    }
  }

  /** Through an empty middle snapshot it is not: `{x=1}` to `{}` and `{}` to `{x=2}`
      are both silenced by the empty-snapshot guard, `{x=1}` to `{x=2}` is not. */
  lemma QuietNotTransitiveThroughEmpty()
    ensures Quiet(map["x" := "1"], map[]) && Quiet(map[], map["x" := "2"])
    ensures !Quiet(map["x" := "1"], map["x" := "2"])
  {
    RawDifferenceIsChange(map["x" := "1"], map["x" := "2"], "x");
  }

  // ---------------------------------------------------------------------------
  // Selecting the bindings to notify (lines 304-321)
  // ---------------------------------------------------------------------------

  /** Some key of `keys` matches `pattern`. */
  predicate MatchesSome(pattern: string, keys: set<string>) {
    exists k :: k in keys && SimpleMatch(pattern, k)
  }

  /** The inner loop over `patternLikeKeys` for one changed key: every pattern that
      matches `key` and has bindings is added with all of its bindings. */
  method AddMatchingPatterns(delivery: Registry, key: string, registry: Registry,
                             patterns: set<string>) returns (d: Registry)
    requires forall p :: p in delivery ==> p in registry && delivery[p] == registry[p]
    ensures forall p :: p in d <==>
              p in delivery || (p in patterns && p in registry && SimpleMatch(p, key))
    ensures forall p :: p in d ==> p in registry && d[p] == registry[p]
  {
    d := delivery;
    var pending := patterns;
    while pending != {}
      invariant pending <= patterns
      invariant forall p :: p in d <==>
                  p in delivery
                  || (p in patterns && p !in pending && p in registry && SimpleMatch(p, key))
      invariant forall p :: p in d ==> p in registry && d[p] == registry[p]
      decreases |pending|
    {
      var p :| p in pending;
      if SimpleMatch(p, key) && p in registry {
        d := AddAll(d, p, registry[p]);
      }
      pending := pending - {p};
    }
  }

  /** A pattern matches some key of `keys + {key}` exactly when it matches some key of
      `keys` or matches `key`. */
  lemma MatchesSomeGrows(p: string, keys: set<string>, key: string)
    ensures MatchesSome(p, keys + {key}) <==> MatchesSome(p, keys) || SimpleMatch(p, key)
  {
    if MatchesSome(p, keys + {key}) && !SimpleMatch(p, key) {
      var k :| k in keys + {key} && SimpleMatch(p, k);
      assert k in keys;
    }
  }

  /** One iteration of the selection loop for the changed key `key`: the key itself when
      it has bindings, then every matching pattern with bindings. */
  method SelectForKey(delivery: Registry, key: string, h: Handler) returns (d: Registry)
    requires forall p :: p in delivery ==> p in h.registry && delivery[p] == h.registry[p]
    ensures forall p :: p in d <==>
              p in delivery || (p == key && key in h.registry)
              || (p in h.patterns && p in h.registry && SimpleMatch(p, key))
    ensures forall p :: p in d ==> p in h.registry && d[p] == h.registry[p]
  {
    d := delivery;
    if key in h.registry {
      d := AddAll(d, key, h.registry[key]);
    }
    d := AddMatchingPatterns(d, key, h.registry, h.patterns);
  }

  /** The selection loop of `changeBeanProperties`: the delivery map holds each changed
      key that has bindings and each registered pattern with bindings that matches some
      changed key, each with all of its bindings, and nothing else. */
  method SelectBindings(changed: set<string>, h: Handler) returns (delivery: Registry)
    ensures forall key :: key in delivery <==>
              key in h.registry
              && (key in changed || (key in h.patterns && MatchesSome(key, changed)))
    ensures forall key :: key in delivery ==> delivery[key] == h.registry[key]
  {
    delivery := map[];
    var todo, done := changed, {};
    while todo != {}
      invariant done + todo == changed
      invariant forall key :: key in delivery <==>
                  key in h.registry
                  && (key in done || (key in h.patterns && MatchesSome(key, done)))
      invariant forall key :: key in delivery ==> key in h.registry && delivery[key] == h.registry[key]
      decreases |todo|
    {
      var key :| key in todo;
      delivery := SelectForKey(delivery, key, h);
      forall p ensures MatchesSome(p, done + {key}) <==> MatchesSome(p, done) || SimpleMatch(p, key) {
        MatchesSomeGrows(p, done, key);
      }
      done, todo := done + {key}, todo - {key};
    }
  }

  // ---------------------------------------------------------------------------
  // Delivery (injectBeanProperties, value selection only)
  // ---------------------------------------------------------------------------

  /** The value delivered for a key or pattern: a pattern gets the aggregate JSON of its
      matching keys, visited once each in the iteration order `order`; a literal key gets
      its expanded value, or nothing when the snapshot lacks it. Placeholders resolve
      against the snapshot, then the environment. */
  function SelectValue(key: string, props: Props, order: seq<string>, env: Props): (v: Option<string>)
    requires IsEnumeration(order, props.Keys)
    ensures v.None? <==> !IsSimpleLikePattern(key) && key !in props
    ensures IsSimpleLikePattern(key) ==>
              var m := Matching(order, props, key);
              && (forall k :: k in m <==> k in props && SimpleMatch(key, k))
              && Distinct(m)
              && v == Some(if |m| == 0 then "}" else "{" + JoinMembers(m, props, Inherited(props, env)) + "}")
    ensures !IsSimpleLikePattern(key) && key in props ==>
              v == Some(Expand(props[key], Resolver(props, env)))
  {
    if IsSimpleLikePattern(key) then
      MapJsonShape(order, props, key, Inherited(props, env));
      Some(GetMapJson(order, props, key, Inherited(props, env)))
    else if key in props then Some(Inherited(props, env)(props[key]))
    else None
  }

  /** One attempted write of `value` into `binding`; `accepted` is false when the
      consumer rejected it (the exception that is caught and logged). */
  datatype Injection = Injection(key: string, binding: Binding, value: string, accepted: bool)

  /** `injectBeanProperties`: every binding of every selected key whose value exists gets
      one attempt; which attempts fail is decided by `rejected`. */
  function Inject(delivery: Registry, props: Props, order: seq<string>, env: Props,
                  rejected: set<(string, Binding)>): (r: set<Injection>)
    requires IsEnumeration(order, props.Keys)
    ensures forall i :: i in r ==>
              i.key in delivery && i.binding in delivery[i.key]
              && SelectValue(i.key, props, order, env) == Some(i.value)
              && (i.accepted <==> (i.key, i.binding) !in rejected)
    ensures forall key, b ::
              (key in delivery && b in delivery[key]
               && SelectValue(key, props, order, env).Some?) ==>
              Injection(key, b, SelectValue(key, props, order, env).value,
                        (key, b) !in rejected) in r
  {
    set key, b | key in delivery && b in delivery[key]
                 && SelectValue(key, props, order, env).Some?
      :: Injection(key, b, SelectValue(key, props, order, env).value, (key, b) !in rejected)
  }

  /** One attempt is made exactly for a selected key and binding with a value, and it is
      accepted exactly when the consumer does not reject it. */
  lemma InjectMembership(delivery: Registry, props: Props, order: seq<string>, env: Props,
                         rejected: set<(string, Binding)>, i: Injection)
    requires IsEnumeration(order, props.Keys)
    ensures i in Inject(delivery, props, order, env, rejected) <==>
              && i.key in delivery && i.binding in delivery[i.key]
              && SelectValue(i.key, props, order, env) == Some(i.value)
              && (i.accepted <==> (i.key, i.binding) !in rejected)
  {
  }

  /** A failing delivery does not stop the others: whatever the consumers reject, the
      same (key, binding, value) attempts are made. */
  lemma RejectionsDoNotStopDelivery(delivery: Registry, props: Props, order: seq<string>,
                                    env: Props, rejected: set<(string, Binding)>,
                                    rejected': set<(string, Binding)>, key: string, b: Binding,
                                    value: string)
    requires IsEnumeration(order, props.Keys)
    ensures (exists a :: Injection(key, b, value, a) in Inject(delivery, props, order, env, rejected))
        <==> (exists a :: Injection(key, b, value, a) in Inject(delivery, props, order, env, rejected'))
  {
    var i := Injection(key, b, value, (key, b) !in rejected);
    var i' := Injection(key, b, value, (key, b) !in rejected');
    InjectMembership(delivery, props, order, env, rejected, i);
    InjectMembership(delivery, props, order, env, rejected', i');
    forall a ensures Injection(key, b, value, a) in Inject(delivery, props, order, env, rejected) ==> a == i.accepted {
      InjectMembership(delivery, props, order, env, rejected, Injection(key, b, value, a));
    }
    forall a ensures Injection(key, b, value, a) in Inject(delivery, props, order, env, rejected') ==> a == i'.accepted {
      InjectMembership(delivery, props, order, env, rejected', Injection(key, b, value, a));
    }
  }

  /** A literal key that the new snapshot does not hold is never delivered. */
  lemma AbsentLiteralIsNotDelivered(delivery: Registry, props: Props, order: seq<string>,
                                    env: Props, rejected: set<(string, Binding)>, i: Injection)
    requires IsEnumeration(order, props.Keys)
    requires i in Inject(delivery, props, order, env, rejected)
    requires !IsSimpleLikePattern(i.key)
    ensures i.key in props
  {
  }

  // ---------------------------------------------------------------------------
  // The whole refresh
  // ---------------------------------------------------------------------------

  /** `changeBeanProperties(old, new)` followed by `injectBeanProperties`: nothing happens
      when either snapshot is empty or no key changed; otherwise the selected bindings get
      their values from the new snapshot. */
  method ChangeBeanProperties(h: Handler, oldProps: Props, newProps: Props,
                              order: seq<string>, env: Props,
                              rejected: set<(string, Binding)>)
    returns (delivery: Registry, injections: set<Injection>)
    requires IsEnumeration(order, newProps.Keys)
    ensures |oldProps| == 0 || |newProps| == 0 ==> delivery == map[] && injections == {}
    ensures |oldProps| > 0 && |newProps| > 0 ==>
              forall key :: key in delivery <==>
                key in h.registry
                && (key in ChangedKeys(oldProps, newProps)
                    || (key in h.patterns && MatchesSome(key, ChangedKeys(oldProps, newProps))))
    ensures forall key :: key in delivery ==> delivery[key] == h.registry[key]
    ensures injections == Inject(delivery, newProps, order, env, rejected)
  {
    if |oldProps| == 0 || |newProps| == 0 {
      return map[], {};
    }
    var changed := ChangedKeys(oldProps, newProps);
    if changed == {} {
      return map[], {};
    }
    delivery := SelectBindings(changed, h);
    injections := Inject(delivery, newProps, order, env, rejected);
  }

  /** Comparing a snapshot with itself delivers nothing. */
  lemma {:induction false} SelfComparisonDeliversNothing(h: Handler, props: Props, k: string)
    ensures !MatchesSome(k, ChangedKeys(props, props)) && k !in ChangedKeys(props, props)
  {
    NoChangeAgainstItself(props);
  }
}
