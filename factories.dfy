/**
 * `DataClassFactory`: a registry from dataclass type to dataclass, held in a
 * class attribute, with a registering decorator, a lookup that instantiates
 * the registered dataclass, and a membership test.
 */
module Factories {
  import opened Wrappers

  /** A member of the `DataClassTypes` enum: how it prints, and its value, which keys the registry. */
  datatype DataClassType = DataClassType(name: string, value: string)

  /**
   * What `get_dataclass` hands back: an instance of `dataClass` created with
   * no arguments, and the keyword arguments its `set_params` was called with,
   * if it was called at all.
   */
  datatype Instance<C, P> = Instance(dataClass: C, setParamsWith: Option<map<string, P>>)

  /** The message of the `ValueError` raised for an unregistered type. */
  function NotRegisteredMessage(t: DataClassType): string {
    "No dataclass registered for type: " + t.name
  }

  /**
   * The class object `DataClassFactory` itself. Its `_registry` is a class
   * attribute, so every classmethod reads and writes this one object.
   */
  class DataClassFactory<C> {
    var registry: map<string, C>

    /** The class body: `_registry` starts out empty. */
    constructor ()
      ensures registry == map[]
    {
      registry := map[];
    }

    /**
     * `register_dataclass(t)` applied to `dataClass`: the entry for `t.value`
     * is set, replacing any earlier one, no other entry changes, and the
     * dataclass is returned unchanged.
     */
    method RegisterDataclass(t: DataClassType, dataClass: C) returns (r: C)
      modifies this
      ensures registry == old(registry)[t.value := dataClass]
      ensures t.value in registry && registry[t.value] == dataClass
      ensures forall k :: k != t.value ==> (k in registry <==> k in old(registry))
      ensures forall k :: k != t.value && k in registry ==> registry[k] == old(registry)[k]
      ensures r == dataClass
    {
      registry := registry[t.value := dataClass];
      r := dataClass;
    }

    /**
     * `get_dataclass(t, **initParams)`: a `ValueError` exactly when nothing is
     * registered for `t`; otherwise an instance of the registered dataclass,
     * with `set_params` called only when keyword arguments were given. The
     * registry is only read.
     */
    method GetDataclass<P>(t: DataClassType, initParams: map<string, P>) returns (r: Result<Instance<C, P>, PyError>)
      ensures r.Err? <==> t.value !in registry
      ensures r.Err? ==> r.error == ValueError(NotRegisteredMessage(t))
      ensures r.Ok? ==> r.value.dataClass == registry[t.value]
      ensures r.Ok? ==> (r.value.setParamsWith.Some? <==> |initParams| > 0)
      ensures r.Ok? && r.value.setParamsWith.Some? ==> r.value.setParamsWith.value == initParams
    {
      if t.value !in registry {
        return Err(ValueError(NotRegisteredMessage(t)));
      }
      var dataClass := registry[t.value];
      var instance := Instance(dataClass, None);
      if |initParams| > 0 {
        instance := instance.(setParamsWith := Some(initParams));
      }
      r := Ok(instance);
    }

    /** `is_registered(t)`: whether the registry holds an entry for `t`; the registry is only read. */
    method IsRegistered(t: DataClassType) returns (b: bool)
      ensures b <==> t.value in registry
    {
      b := t.value in registry;
    }
  }

  /**
   * An instance of `DataClassFactory`. Its `_registry` is the class's, so
   * creating one does not reset what was registered before.
   */
  class FactoryInstance<C> {
    const factoryClass: DataClassFactory<C>

    constructor (factoryClass: DataClassFactory<C>)
      ensures this.factoryClass == factoryClass
      ensures factoryClass.registry == old(factoryClass.registry)
    {
      this.factoryClass := factoryClass;
    }
  }

  /**
   * Registering through one instance is seen through every instance,
   * including one created afterwards: the lookup finds the dataclass and,
   * given no keyword arguments, does not call `set_params`.
   */
  method RegisteredIsSharedByInstances<C>(factoryClass: DataClassFactory<C>, t: DataClassType, dataClass: C)
    returns (seen: bool, found: Result<Instance<C, string>, PyError>)
    modifies factoryClass
    ensures seen
    ensures found == Ok(Instance(dataClass, None))
    ensures factoryClass.registry == old(factoryClass.registry)[t.value := dataClass]
  {
    var first := new FactoryInstance(factoryClass);
    var _ := first.factoryClass.RegisterDataclass(t, dataClass);
    var second := new FactoryInstance(factoryClass);
    seen := second.factoryClass.IsRegistered(t);
    found := second.factoryClass.GetDataclass(t, map[]);
  }
}
