/** The methods of the two protocols: their wire names, what step four of the
    pipeline reads their parameters as, and what dispatch reads them as. */
module Methods {
  import opened Wrappers

  /** NIP-XX, node control. */
  datatype Method =
    | ListChannels | OpenChannel | CloseChannel | ListPeers | ConnectPeer | DisconnectPeer | GetChannelFees
    | SetChannelFees | GetForwardingHistory | GetPendingHtlcs | QueryRoutes | ListNetworkNodes
    | GetNetworkStats | GetNetworkNode | GetNetworkChannel | SignMessage | Unknown(name: string)

  /** NIP-47, wallet. */
  datatype WalletMethod =
    | PayInvoice | MakeInvoice | LookupInvoice | GetBalance | GetInfo | PayOnchain | MakeHoldInvoice
    | SettleHoldInvoice | CancelHoldInvoice | QuotePayment | PayKeysend | ListTransactions | MakeNewAddress
    | LookupAddress | ListAddresses | EstimateOnchainFees | ListInvoices | Pay | Receive | MakeOffer
    | LookupPayment | PayOffer | ListOffers | DisableOffer | UnknownWallet(name: string)

  /** The types a request's parameters deserialise into. */
  datatype RequestType =
    | ListChannelsRequest | OpenChannelRequest | CloseChannelRequest | ListPeersRequest
    | ConnectPeerRequest | DisconnectPeerRequest | GetChannelFeesRequest | SetChannelFeesRequest
    | GetForwardingHistoryRequest | GetPendingHtlcsRequest | QueryRoutesRequest | ListNetworkNodesRequest
    | GetNetworkStatsRequest | GetNetworkNodeRequest | GetNetworkChannelRequest | SignMessageRequest
    | PayInvoiceRequest | MakeInvoiceRequest | LookupInvoiceRequest | GetBalanceRequest | GetInfoRequest
    | PayOnchainRequest | MakeHoldInvoiceRequest | SettleHoldInvoiceRequest | CancelHoldInvoiceRequest
    | QuotePaymentRequest | PayKeysendRequest | ListTransactionsRequest | MakeNewAddressRequest
    | LookupAddressRequest | ListAddressesRequest | EstimateOnchainFeesRequest | ListInvoicesRequest
    | PayRequest | ReceiveRequest | MakeOfferRequest | LookupPaymentRequest | PayOfferRequest
    | ListOffersRequest | DisableOfferRequest

  function MethodName(m: Method): string {
    match m
    case ListChannels => "list_channels"
    case OpenChannel => "open_channel"
    case CloseChannel => "close_channel"
    case ListPeers => "list_peers"
    case ConnectPeer => "connect_peer"
    case DisconnectPeer => "disconnect_peer"
    case GetChannelFees => "get_channel_fees"
    case SetChannelFees => "set_channel_fees"
    case GetForwardingHistory => "get_forwarding_history"
    case GetPendingHtlcs => "get_pending_htlcs"
    case QueryRoutes => "query_routes"
    case ListNetworkNodes => "list_network_nodes"
    case GetNetworkStats => "get_network_stats"
    case GetNetworkNode => "get_network_node"
    case GetNetworkChannel => "get_network_channel"
    case SignMessage => "sign_message"
    case Unknown(name) => name
  }

  function WalletMethodName(m: WalletMethod): string {
    match m
    case PayInvoice => "pay_invoice"
    case MakeInvoice => "make_invoice"
    case LookupInvoice => "lookup_invoice"
    case GetBalance => "get_balance"
    case GetInfo => "get_info"
    case PayOnchain => "pay_onchain"
    case MakeHoldInvoice => "make_hold_invoice"
    case SettleHoldInvoice => "settle_hold_invoice"
    case CancelHoldInvoice => "cancel_hold_invoice"
    case QuotePayment => "quote_payment"
    case PayKeysend => "pay_keysend"
    case ListTransactions => "list_transactions"
    case MakeNewAddress => "make_new_address"
    case LookupAddress => "lookup_address"
    case ListAddresses => "list_addresses"
    case EstimateOnchainFees => "estimate_onchain_fees"
    case ListInvoices => "list_invoices"
    case Pay => "pay"
    case Receive => "receive"
    case MakeOffer => "make_offer"
    case LookupPayment => "lookup_payment"
    case PayOffer => "pay_offer"
    case ListOffers => "list_offers"
    case DisableOffer => "disable_offer"
    case UnknownWallet(name) => name
  }

  function ParseMethod(s: string): Method {
    if s == "list_channels" then ListChannels
    else if s == "open_channel" then OpenChannel
    else if s == "close_channel" then CloseChannel
    else if s == "list_peers" then ListPeers
    else if s == "connect_peer" then ConnectPeer
    else if s == "disconnect_peer" then DisconnectPeer
    else if s == "get_channel_fees" then GetChannelFees
    else if s == "set_channel_fees" then SetChannelFees
    else ParseNetworkMethod(s)
  }

  function ParseNetworkMethod(s: string): Method {
    if s == "get_forwarding_history" then GetForwardingHistory
    else if s == "get_pending_htlcs" then GetPendingHtlcs
    else if s == "query_routes" then QueryRoutes
    else if s == "list_network_nodes" then ListNetworkNodes
    else if s == "get_network_stats" then GetNetworkStats
    else if s == "get_network_node" then GetNetworkNode
    else if s == "get_network_channel" then GetNetworkChannel
    else if s == "sign_message" then SignMessage
    else Unknown(s)
  }

  function ParseWalletMethod(s: string): WalletMethod {
    if s == "pay_invoice" then PayInvoice
    else if s == "make_invoice" then MakeInvoice
    else if s == "lookup_invoice" then LookupInvoice
    else if s == "get_balance" then GetBalance
    else if s == "get_info" then GetInfo
    else if s == "pay_onchain" then PayOnchain
    else if s == "make_hold_invoice" then MakeHoldInvoice
    else if s == "settle_hold_invoice" then SettleHoldInvoice
    else ParseHistoryMethod(s)
  }

  function ParseHistoryMethod(s: string): WalletMethod {
    if s == "cancel_hold_invoice" then CancelHoldInvoice
    else if s == "quote_payment" then QuotePayment
    else if s == "pay_keysend" then PayKeysend
    else if s == "list_transactions" then ListTransactions
    else if s == "make_new_address" then MakeNewAddress
    else if s == "lookup_address" then LookupAddress
    else if s == "list_addresses" then ListAddresses
    else if s == "estimate_onchain_fees" then EstimateOnchainFees
    else ParseOfferMethod(s)
  }

  function ParseOfferMethod(s: string): WalletMethod {
    if s == "list_invoices" then ListInvoices
    else if s == "pay" then Pay
    else if s == "receive" then Receive
    else if s == "make_offer" then MakeOffer
    else if s == "lookup_payment" then LookupPayment
    else if s == "pay_offer" then PayOffer
    else if s == "list_offers" then ListOffers
    else if s == "disable_offer" then DisableOffer
    else UnknownWallet(s)
  }

  /** Step four, for node control. */
  function ValidatedAs(m: Method): Option<RequestType> {
    match m
    case ListChannels => Some(ListChannelsRequest)
    case OpenChannel => Some(OpenChannelRequest)
    case CloseChannel => Some(CloseChannelRequest)
    case ListPeers => Some(ListPeersRequest)
    case ConnectPeer => Some(ConnectPeerRequest)
    case DisconnectPeer => Some(DisconnectPeerRequest)
    case GetChannelFees => Some(GetChannelFeesRequest)
    case SetChannelFees => Some(SetChannelFeesRequest)
    case GetForwardingHistory => Some(GetForwardingHistoryRequest)
    case GetPendingHtlcs => Some(GetPendingHtlcsRequest)
    case QueryRoutes => Some(QueryRoutesRequest)
    case ListNetworkNodes => Some(ListNetworkNodesRequest)
    case GetNetworkStats => Some(GetNetworkStatsRequest)
    case GetNetworkNode => Some(GetNetworkNodeRequest)
    case GetNetworkChannel => Some(GetNetworkChannelRequest)
    case SignMessage => Some(SignMessageRequest)
    case Unknown(_) => None
  }

  /** Step four, for the wallet. */
  function WalletValidatedAs(m: WalletMethod): Option<RequestType> {
    match m
    case PayInvoice => Some(PayInvoiceRequest)
    case MakeInvoice => Some(MakeInvoiceRequest)
    case LookupInvoice => Some(LookupInvoiceRequest)
    case GetBalance => Some(GetBalanceRequest)
    case GetInfo => Some(GetInfoRequest)
    case PayOnchain => Some(PayOnchainRequest)
    case MakeHoldInvoice => Some(MakeHoldInvoiceRequest)
    case SettleHoldInvoice => Some(SettleHoldInvoiceRequest)
    case CancelHoldInvoice => Some(CancelHoldInvoiceRequest)
    case QuotePayment => Some(QuotePaymentRequest)
    case PayKeysend => Some(PayKeysendRequest)
    case ListTransactions => Some(ListTransactionsRequest)
    case MakeNewAddress => Some(MakeNewAddressRequest)
    case LookupAddress => Some(LookupAddressRequest)
    case ListAddresses => Some(ListAddressesRequest)
    case EstimateOnchainFees => Some(EstimateOnchainFeesRequest)
    case ListInvoices => Some(ListInvoicesRequest)
    case Pay => Some(PayRequest)
    case Receive => Some(ReceiveRequest)
    case MakeOffer => Some(MakeOfferRequest)
    case LookupPayment => Some(LookupPaymentRequest)
    case PayOffer => Some(PayOfferRequest)
    case ListOffers => Some(ListOffersRequest)
    case DisableOffer => Some(DisableOfferRequest)
    case UnknownWallet(_) => None
  }

  /** The parameter type of the handler function a node control method is dispatched to. */
  function DispatchedAs(m: Method): Option<RequestType> {
    match m
    case ListChannels => Some(ListChannelsRequest)
    case OpenChannel => Some(OpenChannelRequest)
    case CloseChannel => Some(CloseChannelRequest)
    case ListPeers => Some(ListPeersRequest)
    case ConnectPeer => Some(ConnectPeerRequest)
    case DisconnectPeer => Some(DisconnectPeerRequest)
    case GetChannelFees => Some(GetChannelFeesRequest)
    case SetChannelFees => Some(SetChannelFeesRequest)
    case GetForwardingHistory => Some(GetForwardingHistoryRequest)
    case GetPendingHtlcs => Some(GetPendingHtlcsRequest)
    case QueryRoutes => Some(QueryRoutesRequest)
    case ListNetworkNodes => Some(ListNetworkNodesRequest)
    case GetNetworkStats => Some(GetNetworkStatsRequest)
    case GetNetworkNode => Some(GetNetworkNodeRequest)
    case GetNetworkChannel => Some(GetNetworkChannelRequest)
    case SignMessage => Some(SignMessageRequest)
    case Unknown(_) => None
  }

  /** The parameter type of the handler function a wallet method is dispatched to. */
  function WalletDispatchedAs(m: WalletMethod): Option<RequestType> {
    match m
    case PayInvoice => Some(PayInvoiceRequest)
    case MakeInvoice => Some(MakeInvoiceRequest)
    case LookupInvoice => Some(LookupInvoiceRequest)
    case GetBalance => Some(GetBalanceRequest)
    case GetInfo => Some(GetInfoRequest)
    case PayOnchain => Some(PayOnchainRequest)
    case MakeHoldInvoice => Some(MakeHoldInvoiceRequest)
    case SettleHoldInvoice => Some(SettleHoldInvoiceRequest)
    case CancelHoldInvoice => Some(CancelHoldInvoiceRequest)
    case QuotePayment => Some(QuotePaymentRequest)
    case PayKeysend => Some(PayKeysendRequest)
    case ListTransactions => Some(ListTransactionsRequest)
    case MakeNewAddress => Some(MakeNewAddressRequest)
    case LookupAddress => Some(LookupAddressRequest)
    case ListAddresses => Some(ListAddressesRequest)
    case EstimateOnchainFees => Some(EstimateOnchainFeesRequest)
    case ListInvoices => Some(ListInvoicesRequest)
    case Pay => Some(PayRequest)
    case Receive => Some(ReceiveRequest)
    case MakeOffer => Some(MakeOfferRequest)
    case LookupPayment => Some(LookupPaymentRequest)
    case PayOffer => Some(PayOfferRequest)
    case ListOffers => Some(ListOffersRequest)
    case DisableOffer => Some(DisableOfferRequest)
    case UnknownWallet(_) => None
  }

  lemma NetworkNames(s: string)
    ensures MethodName(ParseNetworkMethod(s)) == s
  {
  }

  lemma OfferNames(s: string)
    ensures WalletMethodName(ParseOfferMethod(s)) == s
  {
  }

  lemma HistoryNames(s: string)
    ensures WalletMethodName(ParseHistoryMethod(s)) == s
  {
    OfferNames(s);
  }

  lemma ControlNamesRoundTrip(s: string)
    ensures MethodName(ParseMethod(s)) == s
  {
    NetworkNames(s);
  }

  lemma WalletNamesRoundTrip(s: string)
    ensures WalletMethodName(ParseWalletMethod(s)) == s
  {
    HistoryNames(s);
  }

  /** The names of the two specifications. */
  predicate IsControlName(s: string) {
    s in {
      "list_channels", "open_channel", "close_channel", "list_peers", "connect_peer",
      "disconnect_peer", "get_channel_fees", "set_channel_fees", "get_forwarding_history",
      "get_pending_htlcs", "query_routes", "list_network_nodes", "get_network_stats",
      "get_network_node", "get_network_channel", "sign_message"
    }
  }

  predicate IsWalletName(s: string) {
    s in {
      "pay_invoice", "make_invoice", "lookup_invoice", "get_balance", "get_info", "pay_onchain",
      "make_hold_invoice", "settle_hold_invoice", "cancel_hold_invoice", "quote_payment",
      "pay_keysend", "list_transactions", "make_new_address", "lookup_address", "list_addresses",
      "estimate_onchain_fees", "list_invoices", "pay", "receive", "make_offer", "lookup_payment",
      "pay_offer", "list_offers", "disable_offer"
    }
  }

  /** A name is read as a method exactly if it is one of the specification's. */
  lemma KnownControlNames(s: string)
    ensures ParseMethod(s).Unknown? <==> !IsControlName(s)
  {
    if !ParseMethod(s).Unknown? {
      ControlNamesRoundTrip(s);
    }
  }

  lemma KnownWalletNames(s: string)
    ensures ParseWalletMethod(s).UnknownWallet? <==> !IsWalletName(s)
  {
    if !ParseWalletMethod(s).UnknownWallet? {
      WalletNamesRoundTrip(s);
    }
  }

  /** Enough of a name to tell any two methods apart: its length, its first letter
      and its last but one. */
  function Shape(s: string): (nat, char, char)
    requires |s| >= 2
  {
    (|s|, s[0], s[|s| - 2])
  }

  function ControlShape(m: Method): (nat, char, char)
    requires !m.Unknown?
  {
    match m
    case ListChannels => (13, 'l', 'l')
    case OpenChannel => (12, 'o', 'e')
    case CloseChannel => (13, 'c', 'e')
    case ListPeers => (10, 'l', 'r')
    case ConnectPeer => (12, 'c', 'e')
    case DisconnectPeer => (15, 'd', 'e')
    case GetChannelFees => (16, 'g', 'e')
    case SetChannelFees => (16, 's', 'e')
    case GetForwardingHistory => (22, 'g', 'r')
    case GetPendingHtlcs => (17, 'g', 'c')
    case QueryRoutes => (12, 'q', 'e')
    case ListNetworkNodes => (18, 'l', 'e')
    case GetNetworkStats => (17, 'g', 't')
    case GetNetworkNode => (16, 'g', 'd')
    case GetNetworkChannel => (19, 'g', 'e')
    case SignMessage => (12, 's', 'g')
  }

  function WalletShape(m: WalletMethod): (nat, char, char)
    requires !m.UnknownWallet?
  {
    match m
    case PayInvoice => (11, 'p', 'c')
    case MakeInvoice => (12, 'm', 'c')
    case LookupInvoice => (14, 'l', 'c')
    case GetBalance => (11, 'g', 'c')
    case GetInfo => (8, 'g', 'f')
    case PayOnchain => (11, 'p', 'i')
    case MakeHoldInvoice => (17, 'm', 'c')
    case SettleHoldInvoice => (19, 's', 'c')
    case CancelHoldInvoice => (19, 'c', 'c')
    case QuotePayment => (13, 'q', 'n')
    case PayKeysend => (11, 'p', 'n')
    case ListTransactions => (17, 'l', 'n')
    case MakeNewAddress => (16, 'm', 's')
    case LookupAddress => (14, 'l', 's')
    case ListAddresses => (14, 'l', 'e')
    case EstimateOnchainFees => (21, 'e', 'e')
    case ListInvoices => (13, 'l', 'e')
    case Pay => (3, 'p', 'a')
    case Receive => (7, 'r', 'v')
    case MakeOffer => (10, 'm', 'e')
    case LookupPayment => (14, 'l', 'n')
    case PayOffer => (9, 'p', 'e')
    case ListOffers => (11, 'l', 'r')
    case DisableOffer => (13, 'd', 'e')
  }

  lemma MethodShape(m: Method)
    requires !m.Unknown?
    ensures |MethodName(m)| >= 2 && Shape(MethodName(m)) == ControlShape(m)
  {
    match m {
      case ListChannels =>
      case OpenChannel =>
      case CloseChannel =>
      case ListPeers =>
      case ConnectPeer =>
      case DisconnectPeer =>
      case GetChannelFees =>
      case SetChannelFees =>
      case GetForwardingHistory =>
      case GetPendingHtlcs =>
      case QueryRoutes =>
      case ListNetworkNodes =>
      case GetNetworkStats =>
      case GetNetworkNode =>
      case GetNetworkChannel =>
      case SignMessage =>
    }
  }

  lemma WalletMethodShape(m: WalletMethod)
    requires !m.UnknownWallet?
    ensures |WalletMethodName(m)| >= 2 && Shape(WalletMethodName(m)) == WalletShape(m)
  {
    match m {
      case PayInvoice =>
      case MakeInvoice =>
      case LookupInvoice =>
      case GetBalance =>
      case GetInfo =>
      case PayOnchain =>
      case MakeHoldInvoice =>
      case SettleHoldInvoice =>
      case CancelHoldInvoice =>
      case QuotePayment =>
      case PayKeysend =>
      case ListTransactions =>
      case MakeNewAddress =>
      case LookupAddress =>
      case ListAddresses =>
      case EstimateOnchainFees =>
      case ListInvoices =>
      case Pay =>
      case Receive =>
      case MakeOffer =>
      case LookupPayment =>
      case PayOffer =>
      case ListOffers =>
      case DisableOffer =>
    }
  }

  lemma ShapesDiffer(m: Method, n: Method)
    requires !m.Unknown? && !n.Unknown? && ControlShape(m) == ControlShape(n)
    ensures m == n
  {
  }

  lemma WalletShapesDiffer(m: WalletMethod, n: WalletMethod)
    requires !m.UnknownWallet? && !n.UnknownWallet? && WalletShape(m) == WalletShape(n)
    ensures m == n
  {
  }

  lemma ShapesKeepApart(m: Method, w: WalletMethod)
    requires !m.Unknown? && !w.UnknownWallet?
    ensures ControlShape(m) != WalletShape(w)
  {
  }

  lemma NameIsListed(m: Method)
    requires !m.Unknown?
    ensures IsControlName(MethodName(m))
  {
  }

  lemma WalletNameIsListed(m: WalletMethod)
    requires !m.UnknownWallet?
    ensures IsWalletName(WalletMethodName(m))
  {
  }

  /** Every known method is what its own name is read as. */
  lemma ControlNamesRead(m: Method)
    requires !m.Unknown?
    ensures ParseMethod(MethodName(m)) == m
  {
    var s := MethodName(m);
    NameIsListed(m);
    KnownControlNames(s);
    ControlNamesRoundTrip(s);
    MethodShape(m);
    MethodShape(ParseMethod(s));
    ShapesDiffer(m, ParseMethod(s));
  }

  lemma WalletNamesRead(m: WalletMethod)
    requires !m.UnknownWallet?
    ensures ParseWalletMethod(WalletMethodName(m)) == m
  {
    var s := WalletMethodName(m);
    WalletNameIsListed(m);
    KnownWalletNames(s);
    WalletNamesRoundTrip(s);
    WalletMethodShape(m);
    WalletMethodShape(ParseWalletMethod(s));
    WalletShapesDiffer(m, ParseWalletMethod(s));
  }

  /** No name belongs to both protocols. */
  lemma NamesKeepProtocolsApart(s: string)
    ensures ParseMethod(s).Unknown? || ParseWalletMethod(s).UnknownWallet?
  {
    var m, w := ParseMethod(s), ParseWalletMethod(s);
    if !m.Unknown? && !w.UnknownWallet? {
      ControlNamesRoundTrip(s);
      WalletNamesRoundTrip(s);
      MethodShape(m);
      WalletMethodShape(w);
      ShapesKeepApart(m, w);
    }
  }
}
