# Uninitialized-value proxy factory of Doctrine ORM

A model of `UninitializedProxyFactory`, Doctrine ORM's lazy-loading strategy built on the `uninitialized` marker value of a PHP extension. The factory does three things:

- `getProxy` builds a placeholder. It makes a bare instance of the entity class and writes every mapped property. A property gets the caller's identifier value when `isset` holds for it, and the marker otherwise.
- `_initialize` is the hook that the runtime fires on the first read of a marked property. It rebuilds the primary key from the object's own identifier fields and throws if one of them still holds the marker. Otherwise it hands the key and the same object to the class's persister `load`. An object whose class has no metadata is left alone.
- `create` builds a factory and, when asked to, installs `_initialize` as the global hook.

The model has two modules:

- `Persistence` (`persistence.dfy`) holds the collaborators the factory sees. A property value is `FieldVal = Uninit | Null | Val(v)`. `Null` is separate because PHP's `isset` treats null as absent. `ClassMetadata` holds the ordered mapped properties, the ordered identifier field names, and every declared property with its declared default. `Entity` is a class whose property map is updated in place. `EntityManager` holds a partial metadata lookup and the persisters' `load`, which records each call in a ghost log `loads`.
- `Proxy` (`uninitialized_proxy_factory.dfy`) holds the factory as a class with imperative `GetProxy` and `Initialize` methods. Each method is proved against a specification function: `ProxyFields` for the object `getProxy` returns (the declared defaults, overwritten at each mapped property by `Seed`), and `ReadIdentifier` for the identifier `_initialize` rebuilds or its failure. The lemmas state what those functions mean.

Three behaviours of the code worth noting:

- `getProxy` writes the supplied value into every mapped property whose name is set in the identifier map, not only into identifier fields (`NonIdentifierFieldTakesSuppliedValue`).
- `getProxy` does not check that the class has metadata; the model requires metadata to exist.
- `_initialize` does nothing after `load`: it records no lazy-load event.

## Model

| member | source | states |
|---|---|---|
| Proxy.SeedFields | lib/Doctrine/ORM/Proxy/UninitializedProxyFactory.php:62-64 | the properties written by `getProxy` are exactly the mapped ones; each holds the identifier's value if that key is present and non-null, and the marker otherwise |
| Proxy.NullIdentifierValueYieldsMarker | lib/Doctrine/ORM/Proxy/UninitializedProxyFactory.php:63 | a null identifier value fails `isset`, so the property receives the marker, not null |
| Proxy.UnmappedIdentifierKeysIgnored | lib/Doctrine/ORM/Proxy/UninitializedProxyFactory.php:62-64 | identifier keys that are not mapped properties have no effect: the result equals that for the map restricted to the mapped properties |
| Proxy.NonIdentifierFieldTakesSuppliedValue | lib/Doctrine/ORM/Proxy/UninitializedProxyFactory.php:62-64 | a mapped non-identifier property whose name is set in the map receives that value, not the marker |
| Proxy.ReadIdentifierMeaning | lib/Doctrine/ORM/Proxy/UninitializedProxyFactory.php:87-92 | rebuilding the key fails exactly when some identifier field holds the marker; otherwise the key has one entry per identifier name, in declared order, with the value read from the object |
| Proxy.ProxyFieldsMeaning | lib/Doctrine/ORM/Proxy/UninitializedProxyFactory.php:60-64 | a fresh proxy has every declared and every mapped property; a mapped one holds the identifier's value if that key is present and non-null and the marker otherwise; an unmapped one keeps its declared default |
| Proxy.ProxyRoundTrip | lib/Doctrine/ORM/Proxy/UninitializedProxyFactory.php:62-94 | on a fresh proxy, rebuilding the key succeeds if and only if every identifier field is set in the map given to `getProxy`, and then equals that map restricted to the identifier fields, in declared order |
| Proxy.UninitializedProxyFactory.constructor | lib/Doctrine/ORM/Proxy/UninitializedProxyFactory.php:43-46 | the factory is bound to the given entity manager and no hook is installed yet |
| Proxy.UninitializedProxyFactory.Create | lib/Doctrine/ORM/Proxy/UninitializedProxyFactory.php:48-53 | a new factory bound to the entity manager; the hook is installed exactly when `registerInitializer` is true; no load happens |
| Proxy.UninitializedProxyFactory.GetProxy | lib/Doctrine/ORM/Proxy/UninitializedProxyFactory.php:55-67 | returns a new instance of the class whose properties are the declared and the mapped ones; each mapped one holds the identifier value or the marker, each unmapped one its declared default; the load log is unchanged |
| Proxy.UninitializedProxyFactory.GenerateProxyClasses | lib/Doctrine/ORM/Proxy/UninitializedProxyFactory.php:69-72 | changes nothing |
| Proxy.UninitializedProxyFactory.Initialize | lib/Doctrine/ORM/Proxy/UninitializedProxyFactory.php:80-95 | no metadata: returns, with no load and the object untouched; a marked identifier field: throws "primary key not initialized", with no load and the object untouched; otherwise exactly one load is appended, for the object's class, with the rebuilt key and the same object |
| Proxy.UserScenario | lib/Doctrine/ORM/Proxy/UninitializedProxyFactory.php:55-94 | a `User` proxy for id 42 carries the id, the marker in `name` and the unmapped `cache` at its default; the hook fired by reading `name` makes exactly one load, of `[id => 42]` into that proxy |
| Persistence.Entity.NewInstance | lib/Doctrine/ORM/Proxy/UninitializedProxyFactory.php:60 | a bare instance of the class holding exactly its declared properties, each at its declared default |
| Persistence.EntityManager.Load | lib/Doctrine/ORM/Proxy/UninitializedProxyFactory.php:94 | the persister call is appended to the load log; the object's properties may change in any way |

## Left out

- Proxy.UninitializedProxyFactory.Create: `registerInitializer` is a `bool` defaulting to true; PHP's truthiness test on an arbitrary value is not modelled.
- The runtime interception that fires `_initialize` on a read of a marked property is not modelled. It is installed by `spl_initialize_register` (line 51), a global hook of a PHP extension. `create` only sets the `registered` flag, and `Initialize` is called directly.
- Persistence.EntityManager.Load: what the persister writes into the object, and the exceptions it may throw, are not modelled. Its contract only records the call, so nothing is claimed about the object after a successful `_initialize`.
- Proxy.UninitializedProxyFactory.GetProxy: requires the class to have metadata. The code does no check at lines 58-60, and what the entity manager does for an unknown class is not part of this model.
- Proxy.UninitializedProxyFactory.Initialize: requires the class's metadata to be valid and the object to have every mapped property. Valid means the identifier names are distinct and each is a mapped property. Line 89 indexes `reflFields` without a check, and an instance of the class always has its declared properties.
- `isset` on the marker itself is not pinned down. `getProxy` writes the marker whether or not `isset` holds for a marker value, so the result is the same either way.
- The "hydrate once per object" guarantee belongs to the runtime hook, not to this code, and is not modelled.
- Reflection (`setValue`, `getValue`, `isInitialized`) is modelled as direct reads and writes of the property map. Metadata lookup is modelled as a partial map.
- Lazy-load diagnostics, concurrency and exception message text are not part of this code.
