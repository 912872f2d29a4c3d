/** The proxy factory that builds placeholders out of the `uninitialized`
    marker and lazily loads them on first read of a marked property. */
module Proxy {
  import opened Persistence

  datatype InitError = PrimaryKeyNotInitialized

  datatype Result<T> = Success(value: T) | Failure(error: InitError)

  /** What `_initialize` does as seen by its caller: it returns normally or throws. */
  datatype Outcome = Returned | Threw(error: InitError)

  // ---------------------------------------------------------------------
  // getProxy, as a function of its inputs

  /** The value `getProxy` writes into property `f`: the identifier's value
      when `isset` holds for it, the marker otherwise. */
  function Seeded(identifier: map<string, FieldVal>, f: string): (v: FieldVal)
  {
    if IsSet(identifier, f) then identifier[f] else Uninit
  }

  /** The properties written by `getProxy`'s loop after visiting `reflFields`
      in order. */
  function Seed(reflFields: seq<string>, identifier: map<string, FieldVal>): (written: map<string, FieldVal>)
  {
    if reflFields == [] then map[]
    else
      var n := |reflFields| - 1;
      Seed(reflFields[..n], identifier)[reflFields[n] := Seeded(identifier, reflFields[n])]
  }

  /** Exactly the mapped properties are written, each with the identifier's
      value if that value is set and with the marker otherwise. */
  lemma {:induction false} SeedFields(reflFields: seq<string>, identifier: map<string, FieldVal>)
    ensures forall f :: f in Seed(reflFields, identifier) <==> f in reflFields
    ensures forall f :: f in reflFields ==>
              Seed(reflFields, identifier)[f] == (if f in identifier && identifier[f].Val? then identifier[f] else Uninit)
  {
    if reflFields != [] {
      var n := |reflFields| - 1;
      SeedFields(reflFields[..n], identifier);
      assert forall f :: f in reflFields <==> f in reflFields[..n] || f == reflFields[n] by {
        assert reflFields == reflFields[..n] + [reflFields[n]];
      }
    }
  }

  /** A null in the identifier map is not `isset`: the property gets the marker, not null. */
  lemma NullIdentifierValueYieldsMarker(reflFields: seq<string>, identifier: map<string, FieldVal>, f: string)
    requires f in reflFields && f in identifier && identifier[f] == Null
    ensures f in Seed(reflFields, identifier) && Seed(reflFields, identifier)[f] == Uninit
  {
    SeedFields(reflFields, identifier);
  }

  /** Identifier keys that are not mapped properties are ignored: the result is
      the same as for the identifier restricted to the mapped properties. */
  lemma UnmappedIdentifierKeysIgnored(reflFields: seq<string>, identifier: map<string, FieldVal>)
    ensures Seed(reflFields, identifier) == Seed(reflFields, map k | k in identifier && k in reflFields :: identifier[k])
  {
    var restricted := map k | k in identifier && k in reflFields :: identifier[k];
    SeedFields(reflFields, identifier);
    SeedFields(reflFields, restricted);
  }

  /** Nothing restricts the writes to identifier fields: a non-identifier
      property whose name is set in the map receives that value. */
  lemma NonIdentifierFieldTakesSuppliedValue(md: ClassMetadata, identifier: map<string, FieldVal>, f: string)
    requires f in md.reflFields && f !in md.identifierFieldNames && IsSet(identifier, f)
    ensures f in Seed(md.reflFields, identifier)
    ensures Seed(md.reflFields, identifier)[f] == identifier[f] != Uninit
  {
    SeedFields(md.reflFields, identifier);
  }

  /** One more turn of `getProxy`'s loop writes one more property of `Seed`. */
  lemma SeedGrows(reflFields: seq<string>, i: nat, identifier: map<string, FieldVal>, defaults: map<string, FieldVal>)
    requires i < |reflFields|
    ensures (defaults + Seed(reflFields[..i], identifier))[reflFields[i] := Seeded(identifier, reflFields[i])] ==
            defaults + Seed(reflFields[..i + 1], identifier)
  {
    assert reflFields[..i + 1][..i] == reflFields[..i];
  }

  /** The properties of the object `getProxy` returns: the bare instance's
      declared defaults, overwritten at every mapped property. */
  function ProxyFields(md: ClassMetadata, identifier: map<string, FieldVal>): (fields: map<string, FieldVal>)
  {
    md.declaredDefaults + Seed(md.reflFields, identifier)
  }

  /** A fresh proxy has every declared and every mapped property; a mapped
      one holds the identifier's value if that value is set and the marker
      otherwise, and an unmapped one keeps its declared default. */
  lemma ProxyFieldsMeaning(md: ClassMetadata, identifier: map<string, FieldVal>)
    ensures forall f :: f in ProxyFields(md, identifier) <==> f in md.declaredDefaults || f in md.reflFields
    ensures forall f :: f in md.reflFields ==>
              ProxyFields(md, identifier)[f] == (if f in identifier && identifier[f].Val? then identifier[f] else Uninit)
    ensures forall f :: f in md.declaredDefaults && f !in md.reflFields ==>
              ProxyFields(md, identifier)[f] == md.declaredDefaults[f]
  {
    SeedFields(md.reflFields, identifier);
  }

  // ---------------------------------------------------------------------
  // The identifier _initialize rebuilds, as a function of the properties

  /** The identifier `_initialize`'s loop builds from `fields`, visiting the
      identifier names in order and failing at the first one still marked. */
  function ReadIdentifier(idNames: seq<string>, fields: map<string, FieldVal>): (r: Result<Identifier>)
    requires forall f :: f in idNames ==> f in fields
  {
    if idNames == [] then Success([])
    else
      var n := |idNames| - 1;
      match ReadIdentifier(idNames[..n], fields)
      case Failure(e) => Failure(e)
      case Success(prefix) =>
        if fields[idNames[n]] == Uninit then Failure(PrimaryKeyNotInitialized)
        else Success(prefix + [(idNames[n], fields[idNames[n]])])
  }

  /** Rebuilding fails exactly when some identifier field still holds the
      marker; otherwise the identifier has one entry per identifier name, in
      the declared order, holding that field's value. */
  lemma {:induction false} ReadIdentifierMeaning(idNames: seq<string>, fields: map<string, FieldVal>)
    requires forall f :: f in idNames ==> f in fields
    ensures ReadIdentifier(idNames, fields).Failure? <==> exists f :: f in idNames && fields[f] == Uninit
    ensures ReadIdentifier(idNames, fields).Success? ==>
              var id := ReadIdentifier(idNames, fields).value;
              |id| == |idNames| && forall i :: 0 <= i < |idNames| ==> id[i] == (idNames[i], fields[idNames[i]])
  {
    if idNames != [] {
      var n := |idNames| - 1;
      ReadIdentifierMeaning(idNames[..n], fields);
      assert forall f :: f in idNames <==> f in idNames[..n] || f == idNames[n] by {
        assert idNames == idNames[..n] + [idNames[n]];
      }
    }
  }

  /** Round trip: rebuilding the identifier from a fresh proxy succeeds exactly
      when every identifier field is set in the map given to `getProxy`, and
      then yields that map restricted to the identifier fields, in declared order. */
  lemma ProxyRoundTrip(md: ClassMetadata, identifier: map<string, FieldVal>)
    requires md.Valid()
    ensures md.Describes(ProxyFields(md, identifier))
    ensures ReadIdentifier(md.identifierFieldNames, ProxyFields(md, identifier)).Success? <==>
              forall f :: f in md.identifierFieldNames ==> IsSet(identifier, f)
    ensures ReadIdentifier(md.identifierFieldNames, ProxyFields(md, identifier)).Success? ==>
              var id := ReadIdentifier(md.identifierFieldNames, ProxyFields(md, identifier)).value;
              var names := md.identifierFieldNames;
              |id| == |names| &&
              forall i :: 0 <= i < |names| ==> names[i] in identifier && id[i] == (names[i], identifier[names[i]])
  {
    ProxyFieldsMeaning(md, identifier);
    ReadIdentifierMeaning(md.identifierFieldNames, ProxyFields(md, identifier));
  }

  // ---------------------------------------------------------------------
  // The factory

  class UninitializedProxyFactory {
    /** The entity manager this factory is bound to. */
    const em: EntityManager
    /** Whether `_initialize` was installed as the global lazy-load hook. */
    var registered: bool

    constructor (em: EntityManager)
      ensures this.em == em && !registered
    {
      this.em := em;
      registered := false;
    }

    /** `create`: a new factory bound to `em`, installed as the hook when asked to. */
    static method Create(em: EntityManager, registerInitializer: bool := true) returns (factory: UninitializedProxyFactory)
      ensures fresh(factory) && factory.em == em
      ensures factory.registered == registerInitializer
      ensures em.loads == old(em.loads)
    {
      factory := new UninitializedProxyFactory(em);
      if registerInitializer {
        factory.registered := true;
      }
    }

    /** `getProxy`: a new bare instance of `className` whose every mapped
        property holds the identifier's value when that value is set, and the
        marker otherwise; unmapped properties keep their declared defaults.
        No persister is called. */
    method GetProxy(className: string, identifier: map<string, FieldVal>) returns (obj: Entity)
      requires className in em.metadata
      ensures fresh(obj) && obj.className == className
      ensures obj.fields == ProxyFields(em.metadata[className], identifier)
      ensures forall f :: f in obj.fields <==>
                f in em.metadata[className].declaredDefaults || f in em.metadata[className].reflFields
      ensures forall f :: f in em.metadata[className].reflFields ==>
                obj.fields[f] == (if IsSet(identifier, f) then identifier[f] else Uninit)
      ensures forall f :: f in em.metadata[className].declaredDefaults && f !in em.metadata[className].reflFields ==>
                obj.fields[f] == em.metadata[className].declaredDefaults[f]
      ensures em.loads == old(em.loads)
    {
      var md := em.metadata[className];
      var reflFields := md.reflFields;
      obj := new Entity.NewInstance(className, md.declaredDefaults);
      ghost var defaults := obj.fields;
      var i := 0;
      while i < |reflFields|
        invariant 0 <= i <= |reflFields| && obj.className == className
        invariant obj.fields == defaults + Seed(reflFields[..i], identifier)
      {
        var f := reflFields[i];
        obj.fields := obj.fields[f := if IsSet(identifier, f) then identifier[f] else Uninit];
        SeedGrows(reflFields, i, identifier, defaults);
        i := i + 1;
      }
      assert reflFields[..i] == reflFields;
      ProxyFieldsMeaning(md, identifier);
    }

    /** `generateProxyClasses`: proxies are plain instances, so there is nothing to generate. */
    method GenerateProxyClasses(classes: seq<string>, toDir: string)
      ensures unchanged(this, em)
    {
    }

    /** `_initialize`: the hook fired on a read of a marked property. For a
        class without metadata it returns and does nothing. Otherwise it
        rebuilds the identifier from the object's own identifier fields,
        throws if one of them still holds the marker, and else hands the
        identifier and the same object to the class's persister, once. */
    method Initialize(obj: Entity, propertyName: string) returns (outcome: Outcome)
      requires obj.className in em.metadata ==>
                 em.metadata[obj.className].Valid() && em.metadata[obj.className].Describes(obj.fields)
      modifies em, obj
      ensures obj.className !in em.metadata ==>
                outcome == Returned && em.loads == old(em.loads) && unchanged(obj)
      ensures obj.className in em.metadata ==>
                var read := ReadIdentifier(em.metadata[obj.className].identifierFieldNames, old(obj.fields));
                (read.Failure? ==>
                   outcome == Threw(PrimaryKeyNotInitialized) && em.loads == old(em.loads) && unchanged(obj)) &&
                (read.Success? ==>
                   outcome == Returned && em.loads == old(em.loads) + [LoadCall(obj.className, read.value, obj)])
    {
      var className := obj.className;
      if className !in em.metadata {
        return Returned;
      }
      var idNames := em.metadata[className].identifierFieldNames;
      var identifier: Identifier := [];
      var i := 0;
      while i < |idNames|
        invariant 0 <= i <= |idNames|
        invariant obj.fields == old(obj.fields) && em.loads == old(em.loads)
        invariant ReadIdentifier(idNames[..i], obj.fields) == Success(identifier)
      {
        var f := idNames[i];
        if obj.fields[f] == Uninit {
          ReadIdentifierMeaning(idNames, obj.fields);
          return Threw(PrimaryKeyNotInitialized);
        }
        identifier := identifier + [(f, obj.fields[f])];
        assert idNames[..i + 1][..i] == idNames[..i];
        i := i + 1;
      }
      assert idNames[..i] == idNames;
      em.Load(className, identifier, obj);
      return Returned;
    }
  }

  /** The lazy-loading scenario of a `User` entity identified by `id`: the
      proxy for id 42 carries the id, the marker in `name` and the unmapped
      `cache` at its default, and the hook fired by reading `name` loads
      id 42 into that same proxy, once. */
  method UserScenario() returns (em: EntityManager, proxy: Entity)
    ensures fresh(em) && em.loads == [LoadCall("User", [("id", Val(Int(42)))], proxy)]
  {
    var user := ClassMetadata(["id", "name"], ["id"], map["id" := Null, "name" := Null, "cache" := Val(Str(""))]);
    em := new EntityManager(map["User" := user]);
    var factory := UninitializedProxyFactory.Create(em);
    proxy := factory.GetProxy("User", map["id" := Val(Int(42))]);
    assert proxy.fields["id"] == Val(Int(42)) && proxy.fields["name"] == Uninit;
    assert proxy.fields["cache"] == Val(Str(""));
    ProxyRoundTrip(user, map["id" := Val(Int(42))]);
    ghost var read := ReadIdentifier(user.identifierFieldNames, proxy.fields);
    assert read.Success? && read.value == [("id", Val(Int(42)))];
    var outcome := factory.Initialize(proxy, "name");
    assert outcome == Returned;
  }
}
