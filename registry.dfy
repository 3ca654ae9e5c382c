/** ValidatorRegistry: the process-wide, insertion-ordered dict from slug to
    validator class. Python's dict keeps each key at the place of its first
    insertion; assigning an existing key replaces the value in place. The
    order is modelled by `keys`, the mapping by `table`. */
module Registry {
  import opened Values
  import opened Text
  import opened Protocol

  /** The contents of the registry dict: its keys in insertion order and the
      class under each key. */
  datatype Registration = Registration(keys: seq<string>, table: map<string, ValidatorClass>) {

    /** The keys are distinct, name exactly the table's entries, and each
        class is filed under its own slug. */
    ghost predicate Valid() {
      && Distinct(keys)
      && (forall k :: k in table <==> k in keys)
      && (forall k :: k in table ==> table[k].slug == k)
    }

    /** `validators[v.slug] = v`: a new slug goes to the end of the order, a
        known slug keeps its place and gets the new class. */
    function Register(v: ValidatorClass): (r: Registration)
      ensures Valid() ==> r.Valid()
    {
      if v.slug in table then Registration(keys, table[v.slug := v])
      else Registration(keys + [v.slug], table[v.slug := v])
    }

    /** `validators.get(slug)`. */
    function Lookup(slug: string): Option<ValidatorClass> {
      if slug in table then Some(table[slug]) else None
    }

    /** `[(slug, v.title) for slug, v in validators.items()]`. */
    function Choices(): (r: seq<(string, string)>)
      requires Valid()
      ensures |r| == |keys|
      ensures forall i :: 0 <= i < |keys| ==> r[i] == (keys[i], table[keys[i]].title)
    {
      ChoicesOf(keys, table)
    }
  }

  function ChoicesOf(keys: seq<string>, table: map<string, ValidatorClass>): (r: seq<(string, string)>)
    requires forall i :: 0 <= i < |keys| ==> keys[i] in table
    ensures |r| == |keys|
    ensures forall i :: 0 <= i < |keys| ==> r[i] == (keys[i], table[keys[i]].title)
  {
    if keys == [] then [] else [(keys[0], table[keys[0]].title)] + ChoicesOf(keys[1..], table)
  }

  const EMPTY := Registration([], map[])

  /** After `register(v)`, looking up `v.slug` gives `v`, every other slug
      looks up what it did before, and an unknown slug gives `None`. */
  lemma RegisterThenLookup(reg: Registration, v: ValidatorClass, slug: string)
    ensures reg.Register(v).Lookup(v.slug) == Some(v)
    ensures slug != v.slug ==> reg.Register(v).Lookup(slug) == reg.Lookup(slug)
    ensures reg.Register(v).Lookup(slug) == None <==> slug != v.slug && slug !in reg.table
  {
  }

  /** In a consistent registry every registered slug looks up a class with
      that very slug, and exactly the listed slugs are found. */
  lemma LookupFindsOwnSlug(reg: Registration, slug: string)
    requires reg.Valid()
    ensures reg.Lookup(slug).Some? <==> slug in reg.keys
    ensures reg.Lookup(slug).Some? ==> reg.Lookup(slug).value.slug == slug
  {
  }

  /** Registering a new slug appends one pair at the end of the choices. */
  lemma ChoicesAfterNewSlug(reg: Registration, v: ValidatorClass)
    requires reg.Valid() && v.slug !in reg.table
    ensures reg.Register(v).Choices() == reg.Choices() + [(v.slug, v.title)]
  {
    var r := reg.Register(v).Choices();
    forall i | 0 <= i < |reg.keys| ensures r[i] == reg.Choices()[i] {
      assert reg.Register(v).keys[i] == reg.keys[i];
    }
  }

  /** Re-registering a slug neither moves nor duplicates its pair: only the
      title at its position changes. */
  lemma ChoicesAfterReRegister(reg: Registration, v: ValidatorClass)
    requires reg.Valid() && v.slug in reg.table
    ensures |reg.Register(v).Choices()| == |reg.Choices()|
    ensures forall i :: 0 <= i < |reg.keys| ==>
      reg.Register(v).Choices()[i] == if reg.keys[i] == v.slug then (v.slug, v.title) else reg.Choices()[i]
  {
  }

  /** The choices hold one pair per registered slug, no slug twice. */
  lemma ChoicesOnePerSlug(reg: Registration)
    requires reg.Valid()
    ensures forall k :: k in reg.table <==> exists i :: 0 <= i < |reg.Choices()| && reg.Choices()[i].0 == k
    ensures forall i, j :: 0 <= i < j < |reg.Choices()| ==> reg.Choices()[i].0 != reg.Choices()[j].0
  {
    forall k | k in reg.table
      ensures exists i :: 0 <= i < |reg.Choices()| && reg.Choices()[i].0 == k
    {
      var i :| 0 <= i < |reg.keys| && reg.keys[i] == k;
      assert reg.Choices()[i].0 == k;
    }
  }

  function SlugsOf(vs: seq<ValidatorClass>): (r: seq<string>)
    ensures |r| == |vs| && forall i :: 0 <= i < |vs| ==> r[i] == vs[i].slug
  {
    seq(|vs|, i requires 0 <= i < |vs| => vs[i].slug)
  }

  /** Registering the classes `vs` one after another, in order. */
  function RegisterAll(reg: Registration, vs: seq<ValidatorClass>): Registration
    decreases |vs|
  {
    if vs == [] then reg else RegisterAll(reg, vs[..|vs| - 1]).Register(vs[|vs| - 1])
  }

  /** Dropping the last of distinct keys leaves distinct keys that do not
      contain it. */
  lemma LastKeyIsFresh(s: seq<string>)
    requires Distinct(s) && s != []
    ensures Distinct(s[..|s| - 1])
    ensures s[|s| - 1] !in s[..|s| - 1]
  {
    var n := |s| - 1;
    forall i | 0 <= i < n ensures s[..n][i] != s[n] {
      assert s[i] != s[n];
    }
  }

  /** The slugs of a list are those of all but its last class, then the last. */
  lemma SlugsOfSnoc(vs: seq<ValidatorClass>)
    requires vs != []
    ensures SlugsOf(vs[..|vs| - 1]) == SlugsOf(vs)[..|vs| - 1]
    ensures SlugsOf(vs) == SlugsOf(vs[..|vs| - 1]) + [vs[|vs| - 1].slug]
  {
  }

  /** Registering a slug not yet present keeps the registry consistent and
      appends the slug. */
  lemma RegisterFresh(reg: Registration, v: ValidatorClass)
    requires reg.Valid() && v.slug !in reg.keys
    ensures reg.Register(v).Valid()
    ensures reg.Register(v).keys == reg.keys + [v.slug]
  {
  }

  /** Registering classes whose slugs are distinct and not yet registered
      keeps the registry consistent and appends their slugs in order. */
  lemma {:induction false} RegisterAllFresh(reg: Registration, vs: seq<ValidatorClass>)
    requires reg.Valid()
    requires Distinct(SlugsOf(vs))
    requires forall i :: 0 <= i < |vs| ==> vs[i].slug !in reg.table
    ensures RegisterAll(reg, vs).Valid()
    ensures RegisterAll(reg, vs).keys == reg.keys + SlugsOf(vs)
  {
    if vs != [] {
      var n := |vs| - 1;
      var init := vs[..n];
      SlugsOfSnoc(vs);
      LastKeyIsFresh(SlugsOf(vs));
      RegisterAllFresh(reg, init);
      var prev := RegisterAll(reg, init);
      assert vs[n].slug !in reg.keys;
      RegisterFresh(prev, vs[n]);
      assert reg.keys + SlugsOf(init) + [vs[n].slug] == reg.keys + SlugsOf(vs);
    }
  }

  /** After registering classes with distinct slugs, each is found under its
      own slug. */
  lemma {:induction false} RegisterAllFinds(reg: Registration, vs: seq<ValidatorClass>, i: nat)
    requires Distinct(SlugsOf(vs))
    requires i < |vs|
    ensures RegisterAll(reg, vs).Lookup(vs[i].slug) == Some(vs[i])
  {
    var n := |vs| - 1;
    var init := vs[..n];
    if i < n {
      assert SlugsOf(init) == SlugsOf(vs)[..n];
      RegisterAllFinds(reg, init, i);
      assert SlugsOf(vs)[i] != SlugsOf(vs)[n];
      RegisterThenLookup(RegisterAll(reg, init), vs[n], vs[i].slug);
    } else {
      RegisterThenLookup(RegisterAll(reg, init), vs[n], vs[i].slug);
    }
  }

  /** Registering classes leaves the lookup of every other slug unchanged. */
  lemma {:induction false} RegisterAllKeepsOthers(reg: Registration, vs: seq<ValidatorClass>, slug: string)
    requires slug !in SlugsOf(vs)
    ensures RegisterAll(reg, vs).Lookup(slug) == reg.Lookup(slug)
  {
    if vs != [] {
      var n := |vs| - 1;
      var init := vs[..n];
      assert SlugsOf(init) == SlugsOf(vs)[..n];
      assert SlugsOf(vs)[n] == vs[n].slug;
      RegisterAllKeepsOthers(reg, init, slug);
      RegisterThenLookup(RegisterAll(reg, init), vs[n], slug);
    }
  }

  /** The five built-in classes, in the order their `@register` decorators run. */
  const BUILTINS := [Builtin(Regex), Builtin(Range), Builtin(Choice), Builtin(Boolean), Builtin(MultipleChoice)]

  /** The registry once the module is loaded. */
  function LoadTime(): Registration {
    RegisterAll(EMPTY, BUILTINS)
  }

  /** The built-in slugs are distinct. */
  lemma BuiltinSlugs()
    ensures SlugsOf(BUILTINS) == ["regex", "range", "choice", "boolean", "multiple_choice"]
    ensures Distinct(SlugsOf(BUILTINS))
  {
    var s := SlugsOf(BUILTINS);
    assert s[0] == "regex" && s[1] == "range" && s[2] == "choice" && s[3] == "boolean" && s[4] == "multiple_choice";
    assert s[0][2] != s[1][2];
    assert s[0][0] == 'r' && s[1][0] == 'r' && s[2][0] == 'c' && s[3][0] == 'b' && s[4][0] == 'm';
  }

  /** The five decorators, spelled out one call after another. */
  lemma LoadTimeUnfolded()
    ensures LoadTime() == EMPTY.Register(Builtin(Regex)).Register(Builtin(Range)).Register(Builtin(Choice))
      .Register(Builtin(Boolean)).Register(Builtin(MultipleChoice))
  {
    var b := BUILTINS;
    assert b[..1][..0] == [];
    assert RegisterAll(EMPTY, b[..1]) == EMPTY.Register(b[0]);
    assert b[..2][..1] == b[..1];
    assert RegisterAll(EMPTY, b[..2]) == RegisterAll(EMPTY, b[..1]).Register(b[1]);
    assert b[..3][..2] == b[..2];
    assert RegisterAll(EMPTY, b[..3]) == RegisterAll(EMPTY, b[..2]).Register(b[2]);
    assert b[..4][..3] == b[..3];
    assert RegisterAll(EMPTY, b[..4]) == RegisterAll(EMPTY, b[..3]).Register(b[3]);
    assert b[..4] == b[..|b| - 1];
    assert RegisterAll(EMPTY, b) == RegisterAll(EMPTY, b[..4]).Register(b[4]);
  }

  /** After loading, the five built-in slugs are registered in declaration
      order and the registry is consistent. */
  lemma LoadedKeys()
    ensures LoadTime().Valid()
    ensures LoadTime().keys == ["regex", "range", "choice", "boolean", "multiple_choice"]
  {
    BuiltinSlugs();
    RegisterAllFresh(EMPTY, BUILTINS);
  }

  /** After loading, every built-in slug finds its own class. */
  lemma LoadedLookups()
    ensures forall k: Kind :: LoadTime().Lookup(Builtin(k).slug) == Some(Builtin(k))
  {
    BuiltinSlugs();
    forall k: Kind ensures LoadTime().Lookup(Builtin(k).slug) == Some(Builtin(k)) {
      var i := match k
        case Regex => 0
        case Range => 1
        case Choice => 2
        case Boolean => 3
        case MultipleChoice => 4;
      assert BUILTINS[i] == Builtin(k);
      RegisterAllFinds(EMPTY, BUILTINS, i);
    }
  }

  /** A consistent registry holding the built-ins in declaration order lists
      their slugs and titles. */
  lemma ChoicesOfBuiltins(reg: Registration)
    requires reg.Valid()
    requires reg.keys == SlugsOf(BUILTINS)
    requires forall i :: 0 <= i < |BUILTINS| ==> reg.Lookup(BUILTINS[i].slug) == Some(BUILTINS[i])
    ensures reg.Choices() == [("regex", "Regex"), ("range", "Range"), ("choice", "Choice"),
                              ("boolean", "Boolean"), ("multiple_choice", "Multiple Choice")]
  {
    var r := reg.Choices();
    assert reg.Lookup(BUILTINS[0].slug) == Some(BUILTINS[0]);
    assert reg.Lookup(BUILTINS[1].slug) == Some(BUILTINS[1]);
    assert reg.Lookup(BUILTINS[2].slug) == Some(BUILTINS[2]);
    assert reg.Lookup(BUILTINS[3].slug) == Some(BUILTINS[3]);
    assert reg.Lookup(BUILTINS[4].slug) == Some(BUILTINS[4]);
    assert r[0] == ("regex", "Regex") && r[1] == ("range", "Range") && r[2] == ("choice", "Choice");
    assert r[3] == ("boolean", "Boolean") && r[4] == ("multiple_choice", "Multiple Choice");
  }

  /** After loading, `get_choices` lists the five built-ins with their titles. */
  lemma LoadedChoices()
    ensures LoadTime().Valid()
    ensures LoadTime().Choices() == [("regex", "Regex"), ("range", "Range"), ("choice", "Choice"),
                                     ("boolean", "Boolean"), ("multiple_choice", "Multiple Choice")]
  {
    BuiltinSlugs();
    RegisterAllFresh(EMPTY, BUILTINS);
    forall i | 0 <= i < |BUILTINS| ensures LoadTime().Lookup(BUILTINS[i].slug) == Some(BUILTINS[i]) {
      RegisterAllFinds(EMPTY, BUILTINS, i);
    }
    ChoicesOfBuiltins(LoadTime());
  }

  /** After loading, an unknown slug finds nothing. */
  lemma NonexistentNotLoaded()
    ensures LoadTime().Lookup("nonexistent") == None
  {
    BuiltinSlugs();
    assert "nonexistent"[0] == 'n';
    assert "nonexistent" !in SlugsOf(BUILTINS);
    RegisterAllKeepsOthers(EMPTY, BUILTINS, "nonexistent");
  }

  class ValidatorRegistry {
    var keys: seq<string>
    var table: map<string, ValidatorClass>

    function Contents(): Registration
      reads this
    {
      Registration(keys, table)
    }

    ghost predicate Valid()
      reads this
    {
      Contents().Valid()
    }

    /** `validators = {}`. */
    constructor ()
      ensures Valid() && Contents() == EMPTY
    {
      keys := [];
      table := map[];
    }

    /** The class body and the five `@register` decorators, run at import. */
    constructor Loaded()
      ensures Valid() && Contents() == LoadTime()
    {
      keys := [];
      table := map[];
      new;
      Register(Builtin(Regex));
      Register(Builtin(Range));
      Register(Builtin(Choice));
      Register(Builtin(Boolean));
      Register(Builtin(MultipleChoice));
      LoadTimeUnfolded();
    }

    /** `register(validator)`: `validators[validator.slug] = validator`. It
        returns nothing, so the module's `@register` decorators rebind the
        class names to `None`. */
    method Register(v: ValidatorClass)
      requires Valid()
      modifies this
      ensures Valid()
      ensures Contents() == old(Contents()).Register(v)
    {
      if v.slug !in table {
        keys := keys + [v.slug];
      }
      table := table[v.slug := v];
    }

    /** `get_validator(slug)`: the class filed under `slug`, or `None` for an
        unknown slug, never an error. */
    method GetValidator(slug: string) returns (r: Option<ValidatorClass>)
      requires Valid()
      ensures r == Contents().Lookup(slug)
      ensures r.Some? <==> slug in keys
      ensures r.Some? ==> r.value.slug == slug
    {
      if slug in table {
        r := Some(table[slug]);
      } else {
        r := None;
      }
    }

    /** `get_choices()`: one `(slug, title)` pair per registered slug, in
        registration order. */
    method GetChoices() returns (r: seq<(string, string)>)
      requires Valid()
      ensures r == Contents().Choices()
      ensures |r| == |keys|
      ensures forall i :: 0 <= i < |keys| ==> r[i] == (keys[i], table[keys[i]].title)
    {
      r := [];
      var i := 0;
      while i < |keys|
        invariant 0 <= i <= |keys|
        invariant |r| == i
        invariant forall j :: 0 <= j < i ==> r[j] == (keys[j], table[keys[j]].title)
      {
        r := r + [(keys[i], table[keys[i]].title)];
        i := i + 1;
      }
    }
  }

  /** After the module is loaded, `get_choices` lists the five built-ins in
      declaration order, a built-in slug finds its class and an unknown slug
      finds nothing. */
  method LoadedRegistry() returns (choices: seq<(string, string)>, found: Option<ValidatorClass>, missing: Option<ValidatorClass>)
    ensures choices == [("regex", "Regex"), ("range", "Range"), ("choice", "Choice"),
                        ("boolean", "Boolean"), ("multiple_choice", "Multiple Choice")]
    ensures found == Some(Builtin(Choice))
    ensures missing == None
  {
    var registry := new ValidatorRegistry.Loaded();
    LoadedChoices();
    LoadedLookups();
    choices := registry.GetChoices();
    found := registry.GetValidator(Builtin(Choice).slug);
    NonexistentNotLoaded();
    missing := registry.GetValidator("nonexistent");
  }
}
