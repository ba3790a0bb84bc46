/** `seedPermissions`: for every member of the `Permissions` enum, create the
    permission unless one of that name exists, counting what it created and what it
    skipped. Existing permissions are left as they are, so seeding twice creates
    nothing the second time. */
module PermissionSeeder {
  import opened Wrappers
  import opened Text
  import opened Tables
  import opened Records
  import opened Store
  import opened Taxonomy

  /** The seeded description: the key with every `_` a space, lower-cased, then
      " permission" (`USERS_ASSIGN_ROLES` gives "users assign roles permission"). */
  function Description(e: Entry): string {
    ToLower(ReplaceAll(Key(e), '_', ' ')) + " permission"
  }

  /** The permission record a member is seeded as: the feature is the part of the name
      before the dot. */
  function Seeding(e: Entry): Permission {
    Permission(Value(e), Some(Description(e)), FeatureOf(Value(e)))
  }

  /** The permission collection holds a permission called `name`. */
  predicate NamedIn(t: Table<Permission>, name: string) {
    exists row :: row in t && row.rec.name == name
  }

  /** The database holds a permission called `name`. */
  predicate Named(db: Db, name: string) {
    NamedIn(db.permissions, name)
  }

  /** The database holds a permission named after `e`. */
  predicate Has(db: Db, e: Entry) {
    Named(db, Value(e))
  }

  /** What the seeder returns with the database it leaves. */
  datatype Seeded = Seeded(db: Db, created: nat, skipped: nat)

  /** A non-empty string of letters, underscores and dots is its own trim. */
  lemma SpelledTrimmed(s: string)
    requires s != []
    requires forall i :: 0 <= i < |s| ==> 'a' <= s[i] <= 'z' || s[i] == '_' || s[i] == '.'
    ensures Trim(s) == s
  {
    assert NoWhitespace(s);
    TrimNoWhitespace(s);
  }

  /** A member's name and feature are already in trimmed form. */
  lemma NameTrimmed(e: Entry)
    ensures Value(e) != "" && Trim(Value(e)) == Value(e)
    ensures FeatureOf(Value(e)) == FeatureName(e.feature)
    ensures Trim(FeatureName(e.feature)) == FeatureName(e.feature) != ""
  {
    var f := FeatureName(e.feature);
    var a := ActionName(e.action);
    FeatureSpelling(e.feature);
    ActionSpelling(e.action);
    ValueWellFormed(e);
    var v := Value(e);
    forall i | 0 <= i < |v| ensures 'a' <= v[i] <= 'z' || v[i] == '_' || v[i] == '.' {
      if i < |f| {
        assert v[i] == f[i];
      } else if |f| < i {
        assert v[i] == a[i - |f| - 1];
      }
    }
    SpelledTrimmed(v);
    SpelledTrimmed(f);
  }

  /** A member's description is already in trimmed form. */
  lemma DescriptionTrimmed(e: Entry)
    ensures Trim(Description(e)) == Description(e)
  {
    FeatureSpelling(e.feature);
    var f := FeatureName(e.feature);
    var d := Description(e);
    var k := Key(e);
    assert k[0] == UpperChar(f[0]);
    assert ReplaceAll(k, '_', ' ')[0] == k[0];
    assert 'a' <= d[0] <= 'z';
    assert d[|d| - 1] == 'n';
    TrimOfTrimmed(d);
  }

  /** The seeded record of a member passes the permission schema as it stands. */
  lemma SeedingWellFormed(e: Entry)
    ensures WellFormedPermission(Seeding(e))
  {
    NameTrimmed(e);
    DescriptionTrimmed(e);
  }

  /** `Permission.create` of a well-formed record whose name is free inserts exactly
      that record under a fresh id. */
  lemma CreateListed(db: Db, p: Permission)
    requires WellFormedPermission(p) && !Named(db, p.name)
    ensures var r := CreatePermission(db, p.name, p.description, p.feature);
      && r.Ok?
      && r.value.id !in Ids(db.permissions)
      && r.value.db == db.(permissions := db.permissions + [Row(r.value.id, p)])
  {
    assert Trim(p.name) == p.name && Trim(p.feature) == p.feature;
    assert TrimOpt(p.description) == p.description;
    assert NewPermission(p.name, p.description, p.feature).Ok?;
  }

  /** `Permission.create` of a well-formed record whose name is taken fails on the
      unique name index. */
  lemma CreateTaken(db: Db, p: Permission)
    requires WellFormedPermission(p) && Named(db, p.name)
    ensures CreatePermission(db, p.name, p.description, p.feature) == Err(DuplicateKey("name"))
  {
    assert Trim(p.name) == p.name && Trim(p.feature) == p.feature;
    assert NewPermission(p.name, p.description, p.feature).Ok?;
  }

  /** `Permission.findOne({ name })` of a trimmed name finds a permission exactly when
      one is called that. */
  lemma LookupListed(db: Db, p: Permission)
    requires WellFormedPermission(p)
    ensures PermissionByName(db, p.name).Some? <==> Named(db, p.name)
  {
    assert Trim(p.name) == p.name;
  }

  /** The records the loop creates, one per member, in order. */
  function Seedings(entries: seq<Entry>): (r: seq<Permission>)
    ensures |r| == |entries|
    ensures forall i :: 0 <= i < |entries| ==> r[i] == Seeding(entries[i])
    ensures forall p :: p in r ==> WellFormedPermission(p)
  {
    var r := seq(|entries|, i requires 0 <= i < |entries| => Seeding(entries[i]));
    forall p | p in r ensures WellFormedPermission(p) {
      var i :| 0 <= i < |r| && r[i] == p;
      SeedingWellFormed(entries[i]);
    }
    r
  }

  /** The collection after `Permission.create` of a record whose name is free: the
      record appended under a fresh id. */
  function Append(t: Table<Permission>, p: Permission): (r: Table<Permission>)
    ensures |r| == |t| + 1 && r[..|t|] == t
    ensures r[|t|].id !in Ids(t) && r[|t|].rec == p
  {
    assert (t + [Row(FreshId(t), p)])[..|t|] == t;
    t + [Row(FreshId(t), p)]
  }

  /** `Permission.create` of a well-formed record whose name is free succeeds, and
      changes the permission collection to `Append` of it and nothing else. */
  lemma CreateFreshAppends(db: Db, p: Permission)
    requires WellFormedPermission(p) && !Named(db, p.name)
    ensures CreatePermission(db, p.name, p.description, p.feature)
      == Ok(Saved(db.(permissions := Append(db.permissions, p)), FreshId(db.permissions)))
  {
    assert Trim(p.name) == p.name && Trim(p.feature) == p.feature;
    assert TrimOpt(p.description) == p.description;
    assert NewPermission(p.name, p.description, p.feature) == Ok(p);
  }

  /** One run of the loop on the permission collection alone: the collection it leaves
      and its two counters. */
  datatype Pass = Pass(table: Table<Permission>, created: nat, skipped: nat)

  /** The loop as a reference definition on the permission collection: a record whose
      name is there is skipped, any other is appended. Everything it adds is one of the
      records, in order after what was there. */
  function SeedPass(t: Table<Permission>, todo: seq<Permission>, created: nat, skipped: nat): (r: Pass)
    ensures r.created + r.skipped == created + skipped + |todo|
    ensures r.created - created == |r.table| - |t| >= 0
    ensures t <= r.table
    ensures forall k :: |t| <= k < |r.table| ==> r.table[k].rec in todo
    decreases |todo|
  {
    if todo == [] then Pass(t, created, skipped)
    else
      var p := todo[0];
      assert forall q :: q in todo[1..] ==> q in todo;
      if NamedIn(t, p.name) then SeedPass(t, todo[1..], created, skipped + 1)
      else
        var next := Append(t, p);
        var r := SeedPass(next, todo[1..], created + 1, skipped);
        assert r.table[|t|] == next[|t|];
        r
  }

  /** The loop over the records still to seed, from counters `created` and `skipped`:
      `Permission.findOne({ name })` skips a record whose name exists, else
      `Permission.create` inserts it, and a failed create is passed on. */
  function SeedFrom(db: Db, todo: seq<Permission>, created: nat, skipped: nat): (r: Result<Seeded, StoreError>)
    requires forall p :: p in todo ==> WellFormedPermission(p)
    ensures var pass := SeedPass(db.permissions, todo, created, skipped);
      r == Ok(Seeded(db.(permissions := pass.table), pass.created, pass.skipped))
    decreases |todo|
  {
    if todo == [] then Ok(Seeded(db, created, skipped))
    else
      var p := todo[0];
      assert forall q :: q in todo[1..] ==> q in todo;
      LookupListed(db, p);
      if PermissionByName(db, p.name).Some? then SeedFrom(db, todo[1..], created, skipped + 1)
      else
        CreateFreshAppends(db, p);
        match CreatePermission(db, p.name, p.description, p.feature)
        case Err(e) => Err(e)
        case Ok(saved) => SeedFrom(saved.db, todo[1..], created + 1, skipped)
  }

  /** `seedPermissions()`. */
  function Seed(db: Db): (r: Result<Seeded, StoreError>)
    ensures r.Ok? && r.value.created + r.value.skipped == |Permissions| == 26
    ensures db.permissions <= r.value.db.permissions
    ensures r.value.db == db.(permissions := r.value.db.permissions)
  {
    TaxonomyWellFormed();
    SeedFrom(db, Seedings(Permissions), 0, 0)
  }
}

/** What the permission seeder guarantees: it covers the taxonomy, adds nothing else,
    keeps the store valid, and is idempotent. */
module PermissionSeederProperties {
  import opened Tables
  import opened Records
  import opened Store
  import opened Taxonomy
  import opened PermissionSeeder

  /** After the pass, every record's name is taken. */
  lemma {:induction false} PassCovers(t: Table<Permission>, todo: seq<Permission>, created: nat, skipped: nat)
    ensures forall p :: p in todo ==> NamedIn(SeedPass(t, todo, created, skipped).table, p.name)
    decreases |todo|
  {
    if todo != [] {
      var p0 := todo[0];
      var next := if NamedIn(t, p0.name) then t else Append(t, p0);
      var after := SeedPass(t, todo, created, skipped).table;
      if NamedIn(t, p0.name) {
        PassCovers(t, todo[1..], created, skipped + 1);
      } else {
        PassCovers(next, todo[1..], created + 1, skipped);
        assert next[|t|] in next;
      }
      assert NamedIn(next, p0.name);
      var row :| row in next && row.rec.name == p0.name;
      assert row in after;
      forall p | p in todo ensures NamedIn(after, p.name) {
        if p != p0 {
          assert p in todo[1..];
        }
      }
    }
  }

  /** When every record's name is taken, the pass changes nothing and skips everything. */
  lemma {:induction false} PassSkipsPresent(t: Table<Permission>, todo: seq<Permission>, created: nat, skipped: nat)
    requires forall p :: p in todo ==> NamedIn(t, p.name)
    ensures SeedPass(t, todo, created, skipped) == Pass(t, created, skipped + |todo|)
    decreases |todo|
  {
    if todo != [] {
      assert todo[0] in todo;
      assert forall p :: p in todo[1..] ==> p in todo;
      PassSkipsPresent(t, todo[1..], created, skipped + 1);
    }
  }

  /** The pass keeps ids distinct, names unique and every record well formed. */
  lemma {:induction false} PassKeepsValid(t: Table<Permission>, todo: seq<Permission>, created: nat, skipped: nat)
    requires PermissionsValid(t) && forall p :: p in todo ==> WellFormedPermission(p)
    ensures PermissionsValid(SeedPass(t, todo, created, skipped).table)
    decreases |todo|
  {
    if todo != [] {
      var p := todo[0];
      assert p in todo;
      assert forall q :: q in todo[1..] ==> q in todo;
      if NamedIn(t, p.name) {
        PassKeepsValid(t, todo[1..], created, skipped + 1);
      } else {
        var row := Row(FreshId(t), p);
        assert Append(t, p) == t + [row];
        AppendFresh(t, row);
        AppendUnique(t, row, PermissionNameOf);
        PassKeepsValid(t + [row], todo[1..], created + 1, skipped);
      }
    }
  }

  /** The seeder is the pass over the taxonomy's records, applied to the permission
      collection; nothing else in the store changes. */
  lemma SeedIsPass(db: Db)
    ensures var pass := SeedPass(db.permissions, Seedings(Permissions), 0, 0);
      Seed(db).value == Seeded(db.(permissions := pass.table), pass.created, pass.skipped)
  {
    TaxonomyWellFormed();
  }

  /** After the pass over the seedings of some entries, every entry's name is taken. */
  lemma PassCoversEntries(t: Table<Permission>, entries: seq<Entry>)
    ensures forall e :: e in entries ==> NamedIn(SeedPass(t, Seedings(entries), 0, 0).table, Value(e))
  {
    var todo := Seedings(entries);
    PassCovers(t, todo, 0, 0);
    forall e | e in entries ensures NamedIn(SeedPass(t, todo, 0, 0).table, Value(e)) {
      var i :| 0 <= i < |entries| && entries[i] == e;
      assert todo[i] in todo && todo[i].name == Value(e);
    }
  }

  /** After seeding, every member of the taxonomy has its permission. */
  lemma SeedCoversTaxonomy(db: Db)
    ensures forall e :: e in Permissions ==> Has(Seed(db).value.db, e)
  {
    SeedIsPass(db);
    PassCoversEntries(db.permissions, Permissions);
  }

  /** Seeding keeps the store valid. */
  lemma SeedKeepsStoreValid(db: Db)
    requires Valid(db)
    ensures Valid(Seed(db).value.db)
  {
    SeedIsPass(db);
    PassKeepsValid(db.permissions, Seedings(Permissions), 0, 0);
  }

  /** A record of `Seedings(entries)` is the seeding of one of the entries. */
  lemma SeedingOf(entries: seq<Entry>, p: Permission)
    requires p in Seedings(entries)
    ensures exists e :: e in entries && p == Seeding(e)
  {
    var todo := Seedings(entries);
    var i :| 0 <= i < |todo| && todo[i] == p;
    assert entries[i] in entries;
  }

  /** Seeding adds nothing but the seeding of taxonomy members, after the permissions
      that were there, which it keeps as they were. */
  lemma SeedAddsOnlyTaxonomy(db: Db)
    ensures var t := Seed(db).value.db.permissions;
      && db.permissions <= t
      && forall k :: |db.permissions| <= k < |t| ==> exists e :: e in Permissions && t[k].rec == Seeding(e)
  {
    SeedIsPass(db);
    var t := Seed(db).value.db.permissions;
    forall k | |db.permissions| <= k < |t| ensures exists e :: e in Permissions && t[k].rec == Seeding(e) {
      SeedingOf(Permissions, t[k].rec);
    }
  }

  /** A second seeding creates nothing, changes nothing and skips all 26 members. */
  lemma SeedIdempotent(db: Db)
    ensures var first := Seed(db).value;
      Seed(first.db).value == Seeded(first.db, 0, 26)
  {
    var todo := Seedings(Permissions);
    var first := Seed(db).value;
    SeedIsPass(db);
    SeedIsPass(first.db);
    PassCovers(db.permissions, todo, 0, 0);
    PassSkipsPresent(first.db.permissions, todo, 0, 0);
  }
}
