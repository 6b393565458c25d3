/**
 * The subscription-module slot of the abstract PaymentGateway class.
 *
 * The slot holds a class reference (PHP null when unset). Turning the
 * reference into a live module goes through the dependency container
 * `give()`, which is foreign code: here it is the resolver `give` passed
 * to the members that need it.
 */
module GatewayContract {
  import opened Wrappers

  /** A subscription-module class-string. */
  type ModuleRef = string

  type DonationId = int
  type SubscriptionId = int
  /** The submitted form data, an associative array of strings. */
  type FormData = map<string, string>

  /** A resolved module: what its handleSubscriptionRequest returns for each request. */
  datatype SubscriptionModule<R> = SubscriptionModule(handleSubscriptionRequest: (DonationId, SubscriptionId, FormData) -> R)

  class PaymentGateway {
    /** None stands for PHP null, the property's initial value. */
    var subscriptionModule: Option<ModuleRef>

    constructor ()
      ensures !HasSubscriptionModule() && subscriptionModule == None
    {
      subscriptionModule := None;
    }

    /** Stores the reference as given, replacing any earlier one; it is neither checked nor resolved. */
    method MountSubscriptionModule(subscriptionModuleClass: Option<ModuleRef>)
      modifies this
      ensures subscriptionModule == subscriptionModuleClass
      ensures HasSubscriptionModule() <==> subscriptionModuleClass.Some?
    {
      subscriptionModule := subscriptionModuleClass;
    }

    /** isset on the property: false before any mount and after mounting null. */
    predicate HasSubscriptionModule()
      reads this
      ensures HasSubscriptionModule() <==> subscriptionModule != None
    {
      subscriptionModule.Some?
    }

    /** The container's instance for the stored reference. */
    method GetSubscriptionModule<R>(give: ModuleRef -> SubscriptionModule<R>) returns (m: SubscriptionModule<R>)
      requires HasSubscriptionModule()
      ensures m == give(subscriptionModule.value)
    {
      m := give(subscriptionModule.value);
    }

    /**
     * Passes the request to the resolved module and returns its answer
     * unchanged. The source does not check that a module is mounted; the
     * container call fails then, which the requires clause leaves to the caller.
     */
    method HandleSubscriptionRequest<R>(give: ModuleRef -> SubscriptionModule<R>,
                                        donationId: DonationId, subscriptionId: SubscriptionId, formData: FormData)
      returns (r: R)
      requires HasSubscriptionModule()
      ensures r == give(subscriptionModule.value).handleSubscriptionRequest(donationId, subscriptionId, formData)
    {
      var resolved := GetSubscriptionModule(give);
      r := resolved.handleSubscriptionRequest(donationId, subscriptionId, formData);
    }
  }

  /** Mounting twice keeps only the second reference, and the delegate then answers through it. */
  method MountTwiceKeepsLast<R>(g: PaymentGateway, first: ModuleRef, second: ModuleRef,
                                give: ModuleRef -> SubscriptionModule<R>, d: DonationId, s: SubscriptionId, f: FormData)
    returns (r: R)
    modifies g
    ensures g.subscriptionModule == Some(second)
    ensures r == give(second).handleSubscriptionRequest(d, s, f)
  {
    g.MountSubscriptionModule(Some(first));
    g.MountSubscriptionModule(Some(second));
    r := g.HandleSubscriptionRequest(give, d, s, f);
  }
}
