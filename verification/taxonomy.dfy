/** The `Permissions` enum: the canonical permission names, each `<feature>.<action>`,
    keyed by an upper-case identifier that spells the same name. */
module Taxonomy {
  import opened Text

  /** The six features the names are grouped by. */
  datatype Feature = Users | Roles | PermissionsFeature | Brands | Products | Categories

  /** The actions a permission grants on a feature. */
  datatype Action = View | Create | Update | Delete | AssignRoles | AssignPermissions

  function FeatureName(f: Feature): string {
    match f
    case Users => "users"
    case Roles => "roles"
    case PermissionsFeature => "permissions"
    case Brands => "brands"
    case Products => "products"
    case Categories => "categories"
  }

  function ActionName(a: Action): string {
    match a
    case View => "view"
    case Create => "create"
    case Update => "update"
    case Delete => "delete"
    case AssignRoles => "assign_roles"
    case AssignPermissions => "assign_permissions"
  }

  /** One enum member, by the two halves its key and its value are spelled from:
      `USERS_ASSIGN_ROLES = 'users.assign_roles'` is `Entry(Users, AssignRoles)`. */
  datatype Entry = Entry(feature: Feature, action: Action)

  /** The enum, in declaration order. */
  const Permissions: seq<Entry> := [
    Entry(Users, View), Entry(Users, Create), Entry(Users, Update), Entry(Users, Delete), Entry(Users, AssignRoles),
    Entry(Roles, View), Entry(Roles, Create), Entry(Roles, Update), Entry(Roles, Delete), Entry(Roles, AssignPermissions),
    Entry(PermissionsFeature, View), Entry(PermissionsFeature, Create), Entry(PermissionsFeature, Update), Entry(PermissionsFeature, Delete),
    Entry(Brands, View), Entry(Brands, Create), Entry(Brands, Update), Entry(Brands, Delete),
    Entry(Products, View), Entry(Products, Create), Entry(Products, Update), Entry(Products, Delete),
    Entry(Categories, View), Entry(Categories, Create), Entry(Categories, Update), Entry(Categories, Delete)
  ]

  /** The feature names a permission name may start with. */
  const Features: seq<string> := ["users", "roles", "permissions", "brands", "products", "categories"]

  /** `s` up to its first `c`, or all of it: `s.split(c)[0]`. */
  function Before(s: string, c: char): (r: string)
    ensures r <= s && c !in r
    ensures c in s ==> |r| < |s| && s[|r|] == c
    ensures c !in s ==> r == s
  {
    if s == [] || s[0] == c then [] else [s[0]] + Before(s[1..], c)
  }

  /** The feature of a permission name: the part before the first `.`. */
  function FeatureOf(name: string): string {
    Before(name, '.')
  }

  /** The action of a permission name: the part after the first `.`, if any. */
  function ActionOf(name: string): string {
    var f := FeatureOf(name);
    if |f| < |name| then name[|f| + 1..] else ""
  }

  /** `s` with its first `a` replaced by `b`: `String.prototype.replace` with a string pattern. */
  function ReplaceFirst(s: string, a: char, b: char): (r: string)
    ensures |r| == |s|
  {
    if s == [] then []
    else if s[0] == a then [b] + s[1..]
    else [s[0]] + ReplaceFirst(s[1..], a, b)
  }

  /** `s` with every `a` replaced by `b`: `replace(/a/g, b)`. */
  function ReplaceAll(s: string, a: char, b: char): (r: string)
    ensures |r| == |s|
    ensures forall i :: 0 <= i < |s| ==> r[i] == if s[i] == a then b else s[i]
  {
    if s == [] then [] else [if s[0] == a then b else s[0]] + ReplaceAll(s[1..], a, b)
  }

  function UpperChar(c: char): char {
    if 'a' <= c <= 'z' then (c as int - 32) as char else c
  }

  function ToUpper(s: string): (r: string)
    ensures |r| == |s|
    ensures forall i :: 0 <= i < |s| ==> r[i] == UpperChar(s[i])
  {
    seq(|s|, i requires 0 <= i < |s| => UpperChar(s[i]))
  }

  /** Upper-casing leaves no lower-case letter, and lower-casing undoes it on a string
      without upper-case letters: the key spelling loses nothing of the value spelling. */
  lemma ToUpperRoundTrip(s: string)
    ensures forall i :: 0 <= i < |s| ==> !('a' <= ToUpper(s)[i] <= 'z')
    ensures NoUpper(s) ==> ToLower(ToUpper(s)) == s
  {
  }

  /** Lower-case letters only: how every feature is spelled. */
  predicate Letters(s: string) {
    forall i :: 0 <= i < |s| ==> 'a' <= s[i] <= 'z'
  }

  /** Lower-case letters and underscores: how every action is spelled. */
  predicate Word(s: string) {
    forall i :: 0 <= i < |s| ==> 'a' <= s[i] <= 'z' || s[i] == '_'
  }

  /** The enum key of a member, `USERS_ASSIGN_ROLES`. */
  function Key(e: Entry): string {
    ToUpper(FeatureName(e.feature)) + "_" + ToUpper(ActionName(e.action))
  }

  /** The enum value of a member, `users.assign_roles`. */
  function Value(e: Entry): string {
    FeatureName(e.feature) + "." + ActionName(e.action)
  }

  /** The naming convention: the value is the key lower-cased, with the first `_`
      (between feature and action) turned into a `.`. */
  function KeyToValue(key: string): string {
    ToLower(ReplaceFirst(key, '_', '.'))
  }

  /** A permission name of the shape `<feature>.<action>`: one dot, a known feature, and
      an action that is neither empty nor a wildcard. */
  predicate WellFormedName(name: string) {
    && Count(name, '.') == 1
    && FeatureOf(name) in Features
    && ActionOf(name) != "" && ActionOf(name) != "*"
  }

  /** Every feature name is lower-case letters, and one of the six. */
  lemma FeatureSpelling(f: Feature)
    ensures Letters(FeatureName(f)) && FeatureName(f) in Features && FeatureName(f) != ""
  {
  }

  /** Every action name is lower-case letters and underscores, and not empty. */
  lemma ActionSpelling(a: Action)
    ensures Word(ActionName(a)) && ActionName(a) != ""
  {
  }

  /** Different features have different names, and so do different actions. */
  lemma NamesInjective(f: Feature, g: Feature, a: Action, b: Action)
    ensures FeatureName(f) == FeatureName(g) ==> f == g
    ensures ActionName(a) == ActionName(b) ==> a == b
  {
  }

  /** Replacing the first `a` skips a prefix without one. */
  lemma {:induction false} ReplaceFirstAfter(p: string, a: char, b: char, rest: string)
    requires a !in p
    ensures ReplaceFirst(p + [a] + rest, a, b) == p + [b] + rest
  {
    if p != [] {
      assert (p + [a] + rest)[1..] == p[1..] + [a] + rest;
      ReplaceFirstAfter(p[1..], a, b, rest);
      assert p == [p[0]] + p[1..];
    } else {
      assert p + [a] + rest == [a] + rest;
    }
  }

  /** The part before the first `c` of a string spelled `p`, `c`, `rest` is `p`. */
  lemma {:induction false} BeforeFirst(p: string, c: char, rest: string)
    requires c !in p
    ensures Before(p + [c] + rest, c) == p
  {
    if p != [] {
      assert (p + [c] + rest)[1..] == p[1..] + [c] + rest;
      BeforeFirst(p[1..], c, rest);
      assert p == [p[0]] + p[1..];
    } else {
      assert p + [c] + rest == [c] + rest;
    }
  }

  /** The feature and the action of a name spelled `f.a` are `f` and `a`. */
  lemma Halves(f: string, a: string)
    requires '.' !in f
    ensures FeatureOf(f + "." + a) == f && ActionOf(f + "." + a) == a
  {
    BeforeFirst(f, '.', a);
    assert f + "." + a == f + ['.'] + a;
    assert (f + "." + a)[|f| + 1..] == a;
  }

  /** A string spelled `f.a` with no dot in `f` or `a` has exactly one dot. */
  lemma OneDot(f: string, a: string)
    requires Letters(f) && Word(a)
    ensures Count(f + "." + a, '.') == 1
  {
    var v := f + "." + a;
    CountZero(f, '.');
    CountZero(a, '.');
    CountSplit(v, |f|, '.');
    assert v[..|f|] == f;
    assert v[|f|..] == "." + a;
    assert ("." + a)[1..] == a;
  }

  /** A name spelled `f.a` with `f` among the features and `a` a non-empty word has the
      `<feature>.<action>` shape. */
  lemma SpelledNameWellFormed(f: string, a: string)
    requires Letters(f) && f in Features && Word(a) && a != ""
    ensures WellFormedName(f + "." + a)
  {
    assert '.' !in f;
    Halves(f, a);
    OneDot(f, a);
    assert a != "*" by {
      if |a| == 1 {
        assert a[0] != '*';
      }
    }
  }

  /** Every value has the `<feature>.<action>` shape, with the member's own halves. */
  lemma ValueWellFormed(e: Entry)
    ensures WellFormedName(Value(e))
    ensures FeatureOf(Value(e)) == FeatureName(e.feature) && ActionOf(Value(e)) == ActionName(e.action)
  {
    FeatureSpelling(e.feature);
    ActionSpelling(e.action);
    SpelledNameWellFormed(FeatureName(e.feature), ActionName(e.action));
    Halves(FeatureName(e.feature), ActionName(e.action));
  }

  /** A name spelled `F_A` in upper case, with `F` all letters, becomes `f.a`. */
  lemma KeySpelling(f: string, a: string)
    requires Letters(f) && Word(a)
    ensures KeyToValue(ToUpper(f) + "_" + ToUpper(a)) == f + "." + a
  {
    var uf := ToUpper(f);
    assert '_' !in uf;
    ReplaceFirstAfter(uf, '_', '.', ToUpper(a));
    assert ToUpper(f) + "_" + ToUpper(a) == uf + ['_'] + ToUpper(a);
    var dotted := uf + ['.'] + ToUpper(a);
    assert ToLower(dotted) == f + "." + a;
  }

  /** Every value is its key lower-cased with the first `_` made a `.`. */
  lemma KeyGivesValue(e: Entry)
    ensures KeyToValue(Key(e)) == Value(e)
  {
    FeatureSpelling(e.feature);
    ActionSpelling(e.action);
    KeySpelling(FeatureName(e.feature), ActionName(e.action));
  }

  /** Two members with the same value are the same member. */
  lemma ValueInjective(d: Entry, e: Entry)
    requires Value(d) == Value(e)
    ensures d == e
  {
    ValueWellFormed(d);
    ValueWellFormed(e);
    NamesInjective(d.feature, e.feature, d.action, e.action);
  }

  /** The enum lists no member twice. */
  lemma EntriesDistinct()
    ensures forall i, j :: 0 <= i < j < |Permissions| ==> Permissions[i] != Permissions[j]
  {
  }

  /** No two members share a value, every value follows the naming convention, and every
      value has the `<feature>.<action>` shape. */
  lemma TaxonomyWellFormed()
    ensures |Permissions| == 26
    ensures forall i, j :: 0 <= i < j < |Permissions| ==> Value(Permissions[i]) != Value(Permissions[j])
    ensures forall e :: e in Permissions ==> KeyToValue(Key(e)) == Value(e) && WellFormedName(Value(e))
  {
    EntriesDistinct();
    forall i, j | 0 <= i < j < |Permissions| ensures Value(Permissions[i]) != Value(Permissions[j]) {
      if Value(Permissions[i]) == Value(Permissions[j]) {
        ValueInjective(Permissions[i], Permissions[j]);
      }
    }
    forall e | e in Permissions ensures KeyToValue(Key(e)) == Value(e) && WellFormedName(Value(e)) {
      KeyGivesValue(e);
      ValueWellFormed(e);
    }
  }
}
