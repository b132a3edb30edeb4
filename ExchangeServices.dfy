/** The exchange-rate services the facade offers and the choice of the one to
    query from the stored service code. */
module ExchangeServices {
  import opened Wrappers
  import opened ConfigStore

  /** A selectable service: its code and display name. */
  datatype ServiceDescriptor = ServiceDescriptor(code: string, name: string)

  /** The two concrete exchange-rate clients. */
  datatype Provider = Blockchain | BitcoinAverage

  /** `EXCHANGE_SERVICES`, in declaration order. */
  const ExchangeServicesTable: seq<ServiceDescriptor> := [
    ServiceDescriptor("blockchain", "Blockchain.info"),
    ServiceDescriptor("bitcoinaverage", "BitcoinAverage")
  ]

  /** `getAvailabeServices`: always the same two services, Blockchain.info
      first, with distinct codes. */
  function AvailableServices(): (services: seq<ServiceDescriptor>)
    ensures |services| == 2
    ensures services[0] == ServiceDescriptor("blockchain", "Blockchain.info")
    ensures services[1] == ServiceDescriptor("bitcoinaverage", "BitcoinAverage")
  {
    ExchangeServicesTable
  }

  /** The code under which a provider is offered. */
  function ProviderCode(p: Provider): string
  {
    match p
    case Blockchain => "blockchain"
    case BitcoinAverage => "bitcoinaverage"
  }

  /** The provider choice of `getExchangeService`, from what is stored under
      "exchange": BitcoinAverage exactly for the code "bitcoinaverage", and
      Blockchain for "blockchain", for nothing stored and for anything else. */
  function ResolveProvider(stored: Option<Value>): (p: Provider)
    ensures p == BitcoinAverage <==> stored == Some(Text("bitcoinaverage"))
    ensures p == Blockchain <==> stored != Some(Text("bitcoinaverage"))
  {
    if stored == Some(Text("blockchain")) then Blockchain
    else if stored == Some(Text("bitcoinaverage")) then BitcoinAverage
    else Blockchain
  }

  /** Selecting any offered service and resolving gives that service's
      provider; a code that is not offered, or no selection, gives the first
      offered service's provider. */
  lemma {:induction false} ResolveOfferedAndDefault(code: string)
    ensures forall i :: 0 <= i < |AvailableServices()| ==>
              ProviderCode(ResolveProvider(Some(Text(AvailableServices()[i].code)))) == AvailableServices()[i].code
    ensures (forall i :: 0 <= i < |AvailableServices()| ==> AvailableServices()[i].code != code) ==>
              ResolveProvider(Some(Text(code))) == ResolveProvider(None)
    ensures ProviderCode(ResolveProvider(None)) == AvailableServices()[0].code
  {
    var services := AvailableServices();
    if forall i :: 0 <= i < |services| ==> services[i].code != code {
      assert services[1].code != code;
    }
  }
}
