/**
 * The wallet service's balance query: fetch the balance in wei from the chain
 * client registry and convert it to ether. Wallet creation and transfer are
 * not implemented in the service; only their error vocabulary exists, in
 * `Errors.Kind`.
 */
module WalletService {
  import opened Errors
  import opened Conversion
  import opened Web3Client

  /**
   * Balance of `address` on `chainID` in ether, kept to `precision` fractional
   * digits. It consults only the client registry and the node.
   */
  function GetBalance(manager: ClientManager, address: string, chainID: nat, node: Node, precision: nat): (r: Result<Decimal>)
    reads manager
    ensures BalanceOf(manager.connections, chainID, address, node).Ok? ==>
      r == Ok(WeiToEther(BalanceOf(manager.connections, chainID, address, node).value, precision))
    ensures BalanceOf(manager.connections, chainID, address, node).Err? ==>
      r.Err? && forall k :: Is(r.error, k) <==> Is(BalanceOf(manager.connections, chainID, address, node).error, k)
  {
    match BalanceOf(manager.connections, chainID, address, node)
    case Err(e) => Err(Wrap("failed to fetch balance from blockchain", e))
    case Ok(wei) => Ok(WeiToEther(wei, precision))
  }

  /**
   * An unknown chain is an error that is no sentinel at all: in particular it
   * is never `ChainNotSupported`, which the controller would map to 400.
   */
  lemma UnknownChainNotSupportedNever(manager: ClientManager, address: string, chainID: nat, node: Node, precision: nat)
    requires chainID !in manager.connections
    ensures GetBalance(manager, address, chainID, node, precision).Err?
    ensures Anonymous(GetBalance(manager, address, chainID, node, precision).error)
    ensures !Is(GetBalance(manager, address, chainID, node, precision).error, ChainNotSupported)
  {
    BalanceOfUnknownChain(manager.connections, chainID, address, node, node);
  }

  /** The only sentinels a balance error can carry are those of the node's own error. */
  lemma GetBalanceErrorsFromNode(manager: ClientManager, address: string, chainID: nat, node: Node, precision: nat, k: Kind)
    requires GetBalance(manager, address, chainID, node, precision).Err?
    requires Is(GetBalance(manager, address, chainID, node, precision).error, k)
    ensures chainID in manager.connections
    ensures node(manager.connections[chainID], address).QueryFailed?
    ensures Is(node(manager.connections[chainID], address).cause, k)
  {
    if chainID !in manager.connections {
      UnknownChainNotSupportedNever(manager, address, chainID, node, precision);
    }
  }

  /** A whole-ether balance is reported exactly, whatever the precision. */
  lemma GetBalanceWholeEther(manager: ClientManager, address: string, chainID: nat, node: Node, precision: nat, ether: int)
    requires chainID in manager.connections
    requires node(manager.connections[chainID], address) == Balance(ether * EthPrecision)
    ensures GetBalance(manager, address, chainID, node, precision).Ok?
    ensures GetBalance(manager, address, chainID, node, precision).value == Decimal(ether * Pow10(precision), -(precision as int))
  {
    WeiToEtherWholeEther(ether, precision);
  }
}
