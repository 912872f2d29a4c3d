/** The collaborators the proxy factory works against: entity property values,
    class metadata, entity instances and the entity manager whose persisters
    load rows. Only what the factory observes of them is modelled. */
module Persistence {

  /** An ordinary (non-null) PHP value held by a property or an identifier. */
  datatype Scalar = Int(i: int) | Str(s: string)

  /** What a property of an entity instance holds: the `uninitialized`
      marker of the lazy-loading extension, PHP null, or an ordinary value. */
  datatype FieldVal = Uninit | Null | Val(v: Scalar)

  /** An identifier as handed to a persister: a PHP array from field name to
      value, kept in insertion order. */
  type Identifier = seq<(string, FieldVal)>

  /** PHP's `isset($a[$k])`: the key is present and its value is an ordinary
      value (neither null nor the marker). */
  predicate IsSet(a: map<string, FieldVal>, k: string)
  {
    k in a && a[k].Val?
  }

  /** The part of `ClassMetadata` the factory uses: the mapped properties
      (the keys of `reflFields`, in declaration order), the identifier field
      names (`getIdentifierFieldNames()`, in declaration order), and every
      property the class declares, mapped or not, with its declared default
      (what `newInstance()` gives a bare instance). */
  datatype ClassMetadata = ClassMetadata(
    reflFields: seq<string>,
    identifierFieldNames: seq<string>,
    declaredDefaults: map<string, FieldVal>)
  {
    /** What the mapping layer guarantees of every metadata object: identifier
        names are distinct and each one is a mapped property. */
    predicate Valid()
    {
      (forall i, j :: 0 <= i < j < |identifierFieldNames| ==> identifierFieldNames[i] != identifierFieldNames[j]) &&
      (forall f :: f in identifierFieldNames ==> f in reflFields)
    }

    /** `fields` belongs to an instance of this class: it has every mapped property. */
    predicate Describes(fields: map<string, FieldVal>)
    {
      forall f :: f in reflFields ==> f in fields
    }
  }

  /** An entity instance: its runtime class (`get_class`) and its properties,
      which reflection reads and writes in place. */
  class Entity {
    const className: string
    var fields: map<string, FieldVal>

    /** `ClassMetadata::newInstance`: a bare instance whose constructor has not
        run, so it has exactly the class's declared properties, each at its
        declared default. */
    constructor NewInstance(className: string, declaredDefaults: map<string, FieldVal>)
      ensures this.className == className
      ensures fields == declaredDefaults
    {
      this.className := className;
      fields := declaredDefaults;
    }
  }

  /** One call of `getEntityPersister($className)->load($identifier, $obj)`. */
  datatype LoadCall = LoadCall(persister: string, identifier: Identifier, target: Entity)

  /** The entity manager as the factory sees it: a metadata lookup that may
      fail, and the persisters' `load`, whose calls are recorded in `loads`. */
  class EntityManager {
    const metadata: map<string, ClassMetadata>
    ghost var loads: seq<LoadCall>

    constructor (metadata: map<string, ClassMetadata>)
      ensures this.metadata == metadata && loads == []
    {
      this.metadata := metadata;
      loads := [];
    }

    /** The persister of `className` loads the row named by `identifier` into
        `obj`. How it fills `obj` is the persister's business: the contract
        lets it change the object's properties and promises only that the
        call is recorded. */
    method Load(className: string, identifier: Identifier, obj: Entity)
      modifies this, obj
      ensures loads == old(loads) + [LoadCall(className, identifier, obj)]
    {
      loads := loads + [LoadCall(className, identifier, obj)];
    }
  }
}
