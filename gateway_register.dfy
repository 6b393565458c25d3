/**
 * PaymentGatewayRegister: the directory from gateway id to gateway class.
 *
 * A PHP class-string is modelled by the facts the register asks of it:
 * whether `is_subclass_of(class, PaymentGateway::class)` holds and what its
 * static `id()` returns. The legacy adapter that is told about each new
 * gateway is foreign code; it is a function parameter that says whether
 * that call raised an exception, and a ghost log records every call
 * together with the register's map at that moment.
 */
module GatewayRegister {
  import opened Wrappers

  const PaymentGatewayClass := "Give\\Framework\\PaymentGateways\\Contracts\\PaymentGateway"

  /** A gateway class as the register sees it. */
  datatype GatewayClass = GatewayClass(name: string, extendsPaymentGateway: bool, id: string)

  datatype RegisterError =
    | InvalidArgument(message: string)
    | Overflow(message: string)
      /** The legacy adapter raised an exception after the gateway was stored. */
    | AdapterFailure(message: string)

  type Gateways = map<string, GatewayClass>

  function NotAGatewayMessage(c: GatewayClass): (r: string)
  {
    c.name + " must extend " + PaymentGatewayClass
  }

  function DuplicateIdMessage(id: string): (r: string)
  {
    "Cannot register a gateway with an id that already exists: " + id
  }

  function UnknownIdMessage(id: string): (r: string)
  {
    "No migration exists with the ID " + id
  }

  /** The map registerGateway leaves behind, or the exception it raises before storing anything. */
  function Register(m: Gateways, c: GatewayClass): (r: Result<Gateways, RegisterError>)
    ensures r.Failure? <==> !c.extendsPaymentGateway || c.id in m
    ensures !c.extendsPaymentGateway ==> r == Failure(InvalidArgument(NotAGatewayMessage(c)))
    ensures c.extendsPaymentGateway && c.id in m ==> r == Failure(Overflow(DuplicateIdMessage(c.id)))
    ensures r.Success? ==> r.value.Keys == m.Keys + {c.id} && r.value[c.id] == c
    ensures r.Success? ==> forall k :: k in m ==> r.value[k] == m[k]
  {
    if !c.extendsPaymentGateway then Failure(InvalidArgument(NotAGatewayMessage(c)))
    else if c.id in m then Failure(Overflow(DuplicateIdMessage(c.id)))
    else Success(m[c.id := c])
  }

  /** The map unregisterGateway leaves behind: the same map without `id`. */
  function Unregister(m: Gateways, id: string): (r: Gateways)
    ensures r.Keys == m.Keys - {id}
    ensures forall k :: k in r ==> r[k] == m[k]
    ensures id !in m ==> r == m
  {
    m - {id}
  }

  /** What getPaymentGateway returns for a map: the stored class or the exception. */
  function Lookup(m: Gateways, id: string): (r: Result<GatewayClass, RegisterError>)
    ensures r.Success? <==> id in m
    ensures r.Success? ==> r.value == m[id]
    ensures r.Failure? ==> r.error == InvalidArgument(UnknownIdMessage(id))
  {
    if id in m then Success(m[id]) else Failure(InvalidArgument(UnknownIdMessage(id)))
  }

  /** Registration never overwrites: an existing entry survives any register call. */
  lemma RegisterNeverOverwrites(m: Gateways, c: GatewayClass, k: string)
    requires k in m
    ensures Register(m, c).Success? ==> Lookup(Register(m, c).value, k) == Lookup(m, k)
    ensures Register(m, c).Success? ==> k != c.id
  {
  }

  /** Registering a gateway and then unregistering its id restores the map. */
  lemma RegisterThenUnregister(m: Gateways, c: GatewayClass)
    requires Register(m, c).Success?
    ensures Unregister(Register(m, c).value, c.id) == m
  {
  }

  /** For a PaymentGateway, a successful register makes the id look up to the class; a failed one is the duplicate-id error and the earlier entry still looks up. */
  lemma RegisteredIsFound(m: Gateways, c: GatewayClass)
    requires c.extendsPaymentGateway
    ensures Register(m, c).Success? ==> Lookup(Register(m, c).value, c.id) == Success(c)
    ensures Register(m, c).Failure? ==>
              Register(m, c) == Failure(Overflow(DuplicateIdMessage(c.id))) && Lookup(m, c.id) == Success(m[c.id])
  {
  }

  /** Two gateways with distinct ids both register, and the map then holds exactly the two. */
  lemma TwoDistinctGateways(a: GatewayClass, b: GatewayClass)
    requires a.extendsPaymentGateway && b.extendsPaymentGateway && a.id != b.id
    ensures Register(map[], a).Success?
    ensures Register(Register(map[], a).value, b).Success?
    ensures Register(Register(map[], a).value, b).value == map[a.id := a, b.id := b]
  {
  }

  /** Every entry in a map built by registration is a PaymentGateway filed under its own id. */
  ghost predicate WellFiled(m: Gateways)
  {
    forall k :: k in m ==> m[k].extendsPaymentGateway && m[k].id == k
  }

  /** Register and unregister keep every entry a PaymentGateway filed under its own id. */
  lemma RegisterKeepsWellFiled(m: Gateways, c: GatewayClass)
    requires WellFiled(m)
    ensures Register(m, c).Success? ==> WellFiled(Register(m, c).value)
    ensures WellFiled(Unregister(m, c.id))
  {
  }

  /** One call to the legacy adapter: the class and the register's map when the call was made. */
  datatype Connection = Connection(gateway: GatewayClass, registeredAtCall: Gateways)

  class PaymentGatewayRegister {
    var gateways: Gateways
    /** Every call made to the legacy adapter, oldest first. */
    ghost var connections: seq<Connection>

    /** Every stored class is a PaymentGateway under its own id, and each adapter call came after that class was stored. */
    ghost predicate Valid()
      reads this
    {
      && WellFiled(gateways)
      && forall i :: 0 <= i < |connections| ==>
           connections[i].gateway.id in connections[i].registeredAtCall
           && connections[i].registeredAtCall[connections[i].gateway.id] == connections[i].gateway
    }

    constructor ()
      ensures Valid() && gateways == map[] && connections == []
    {
      gateways := map[];
      connections := [];
    }

    /** The whole map; a map is a value, so the caller holds a snapshot. */
    method GetPaymentGateways() returns (r: Gateways)
      ensures r.Keys == gateways.Keys
      ensures forall k :: k in r ==> Lookup(gateways, k) == Success(r[k])
    {
      r := gateways;
    }

    method GetPaymentGateway(id: string) returns (r: Result<GatewayClass, RegisterError>)
      ensures r.Success? <==> HasPaymentGateway(id)
      ensures r.Success? ==> r.value == gateways[id]
      ensures r.Failure? ==> r.error == InvalidArgument(UnknownIdMessage(id))
    {
      if id !in gateways {
        return Failure(InvalidArgument(UnknownIdMessage(id)));
      }
      r := Success(gateways[id]);
    }

    predicate HasPaymentGateway(id: string)
      reads this
      ensures HasPaymentGateway(id) <==> Lookup(gateways, id).Success?
    {
      id in gateways
    }

    /**
     * Rejects a non-gateway class and a duplicate id without touching the
     * map; otherwise stores the class and then calls the legacy adapter,
     * whose failure does not undo the insertion.
     */
    method RegisterGateway(c: GatewayClass, connectLegacy: GatewayClass -> Option<string>)
      returns (r: Outcome<RegisterError>)
      requires Valid()
      modifies this
      ensures Valid()
      ensures Register(old(gateways), c).Failure? ==>
        r == Fail(Register(old(gateways), c).error)
        && gateways == old(gateways) && connections == old(connections)
      ensures Register(old(gateways), c).Success? ==>
        gateways == Register(old(gateways), c).value
        && connections == old(connections) + [Connection(c, gateways)]
        && r == (if connectLegacy(c).Some? then Fail(AdapterFailure(connectLegacy(c).value)) else Pass)
    {
      if !c.extendsPaymentGateway {
        return Fail(InvalidArgument(NotAGatewayMessage(c)));
      }
      var gatewayId := c.id;
      if gatewayId in gateways {
        return Fail(Overflow(DuplicateIdMessage(gatewayId)));
      }
      gateways := gateways[gatewayId := c];
      connections := connections + [Connection(c, gateways)];
      var raised := connectLegacy(c);
      r := if raised.Some? then Fail(AdapterFailure(raised.value)) else Pass;
    }

    method UnregisterGateway(gatewayId: string)
      requires Valid()
      modifies this
      ensures Valid()
      ensures gateways == Unregister(old(gateways), gatewayId)
      ensures connections == old(connections)
    {
      if gatewayId in gateways {
        gateways := gateways - {gatewayId};
      }
    }
  }

  /** A register followed by an unregister of the same id leaves the register's map as it was. */
  method RegisterThenUnregisterGateway(reg: PaymentGatewayRegister, c: GatewayClass, connectLegacy: GatewayClass -> Option<string>)
    requires reg.Valid() && c.extendsPaymentGateway && !reg.HasPaymentGateway(c.id)
    modifies reg
    ensures reg.Valid() && reg.gateways == old(reg.gateways)
  {
    var _ := reg.RegisterGateway(c, connectLegacy);
    assert reg.HasPaymentGateway(c.id);
    reg.UnregisterGateway(c.id);
    RegisterThenUnregister(old(reg.gateways), c);
  }
}
