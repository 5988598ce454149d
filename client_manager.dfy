/**
 * The chain client registry: one RPC connection per configured chain ID,
 * built eagerly and fail-fast at start-up, then only read.
 *
 * Dialling an endpoint and querying a balance are network I/O; they are the
 * caller-supplied functions `dial` and `node`, whose outcomes the model takes
 * as given.
 */
module Web3Client {
  import opened Errors

  /** One configured chain: its ID and its JSON-RPC endpoint ("" when unset). */
  datatype ChainConfig = ChainConfig(chainID: nat, rpcUrl: string)

  /** A live connection, identified by the endpoint it was dialled at and a session number. */
  datatype Client = Client(url: string, session: nat)

  datatype DialOutcome = Connected(client: Client) | DialFailed(cause: Error)

  /** A balance query against the latest block, bounded by its 10-second timeout. */
  datatype BalanceReply = Balance(wei: int) | QueryFailed(cause: Error)

  type Dialer = string -> DialOutcome
  type Node = (Client, string) -> BalanceReply

  const ChainNotFound: Error := Opaque("chain ID not found in configuration or failed to connect")

  /** Construction dials this config and the dial fails. */
  predicate Fails(c: ChainConfig, dial: Dialer)
  {
    c.rpcUrl != "" && dial(c.rpcUrl).DialFailed?
  }

  /** Index of the first config whose dial fails, if any. */
  function FirstFailure(configs: seq<ChainConfig>, dial: Dialer): (r: Option<nat>)
    ensures r.None? <==> forall j :: 0 <= j < |configs| ==> !Fails(configs[j], dial)
    ensures r.Some? ==>
      && r.value < |configs|
      && Fails(configs[r.value], dial)
      && (forall j :: 0 <= j < r.value ==> !Fails(configs[j], dial))
  {
    if |configs| == 0 then None
    else if Fails(configs[0], dial) then Some(0)
    else
      var rest := FirstFailure(configs[1..], dial);
      assert forall j :: 1 <= j < |configs| ==> configs[j] == configs[1..][j - 1];
      if rest.None? then None else Some(rest.value + 1)
  }

  /** The connection table after dialling every config in order, later entries overwriting earlier ones. */
  function Table(configs: seq<ChainConfig>, dial: Dialer): map<nat, Client>
  {
    if |configs| == 0 then map[]
    else
      var t := Table(configs[..|configs| - 1], dial);
      var c := configs[|configs| - 1];
      if c.rpcUrl == "" || dial(c.rpcUrl).DialFailed? then t else t[c.chainID := dial(c.rpcUrl).client]
  }

  /** The chain IDs of the configs that carry an endpoint. */
  function Configured(configs: seq<ChainConfig>): set<nat>
  {
    set j | 0 <= j < |configs| && configs[j].rpcUrl != "" :: configs[j].chainID
  }

  /** When every dial succeeds, the table holds exactly the chain IDs that have an endpoint. */
  lemma {:induction false} TableKeys(configs: seq<ChainConfig>, dial: Dialer)
    requires FirstFailure(configs, dial).None?
    ensures Table(configs, dial).Keys == Configured(configs)
  {
    if |configs| > 0 {
      var init := configs[..|configs| - 1];
      assert forall j :: 0 <= j < |init| ==> init[j] == configs[j];
      TableKeys(init, dial);
      var c := configs[|configs| - 1];
      assert !Fails(c, dial);
      if c.rpcUrl == "" {
        assert Configured(configs) == Configured(init);
      } else {
        assert Configured(configs) == Configured(init) + {c.chainID};
      }
    }
  }

  /** A chain's entry is the client of the last config for it that has an endpoint. */
  lemma {:induction false} TableLastWins(configs: seq<ChainConfig>, dial: Dialer, i: nat)
    requires FirstFailure(configs, dial).None?
    requires i < |configs| && configs[i].rpcUrl != ""
    requires forall j :: i < j < |configs| ==> configs[j].chainID != configs[i].chainID || configs[j].rpcUrl == ""
    ensures configs[i].chainID in Table(configs, dial)
    ensures Table(configs, dial)[configs[i].chainID] == dial(configs[i].rpcUrl).client
  {
    var init := configs[..|configs| - 1];
    assert forall j :: 0 <= j < |init| ==> init[j] == configs[j];
    if i < |configs| - 1 {
      TableLastWins(init, dial, i);
    } else {
      assert !Fails(configs[i], dial);
    }
  }

  /** A chain whose every config lacks an endpoint never gets a connection. */
  lemma SkippedChainAbsent(configs: seq<ChainConfig>, dial: Dialer, id: nat)
    requires FirstFailure(configs, dial).None?
    requires forall j :: 0 <= j < |configs| && configs[j].chainID == id ==> configs[j].rpcUrl == ""
    ensures id !in Table(configs, dial)
  {
    TableKeys(configs, dial);
  }

  /** The result of looking a chain up in a connection table. */
  function Lookup(connections: map<nat, Client>, chainID: nat): (r: Result<Client>)
    ensures r.Ok? <==> chainID in connections
    ensures r.Ok? ==> r.value == connections[chainID]
    ensures r.Err? ==> r.error == ChainNotFound
  {
    if chainID in connections then Ok(connections[chainID]) else Err(ChainNotFound)
  }

  /** The result of a balance query routed through a connection table. */
  function BalanceOf(connections: map<nat, Client>, chainID: nat, address: string, node: Node): Result<int>
  {
    match Lookup(connections, chainID)
    case Err(e) => Err(Wrap("failed to get client for chain", e))
    case Ok(client) =>
      match node(client, address)
      case Balance(wei) => Ok(wei)
      case QueryFailed(e) => Err(Wrap("failed to fetch balance for address " + address, e))
  }

  /** An unknown chain fails without consulting the node; no error of the registry is a sentinel. */
  lemma BalanceOfUnknownChain(connections: map<nat, Client>, chainID: nat, address: string, node: Node, other: Node)
    requires chainID !in connections
    ensures BalanceOf(connections, chainID, address, node).Err?
    ensures BalanceOf(connections, chainID, address, node) == BalanceOf(connections, chainID, address, other)
    ensures Anonymous(BalanceOf(connections, chainID, address, node).error)
  {
  }

  class ClientManager {
    var connections: map<nat, Client>

    constructor ()
      ensures connections == map[]
    {
      connections := map[];
    }

    /** Dial one endpoint and record the connection under its chain ID. */
    method InitializeClient(chainID: nat, rpcUrl: string, dial: Dialer) returns (err: Option<Error>)
      modifies this
      ensures dial(rpcUrl).Connected? ==>
        err.None? && connections == old(connections)[chainID := dial(rpcUrl).client]
      ensures dial(rpcUrl).DialFailed? ==>
        err == Some(Wrap("failed to connect to RPC URL " + rpcUrl, dial(rpcUrl).cause))
        && connections == old(connections)
    {
      match dial(rpcUrl)
      case DialFailed(cause) =>
        err := Some(Wrap("failed to connect to RPC URL " + rpcUrl, cause));
      case Connected(client) =>
        connections := connections[chainID := client];
        err := None;
    }

    /** The stored client for a configured chain, an error otherwise. */
    method GetClient(chainID: nat) returns (r: Result<Client>)
      ensures chainID in connections ==> r == Ok(connections[chainID])
      ensures chainID !in connections ==> r == Err(ChainNotFound)
    {
      if chainID in connections {
        r := Ok(connections[chainID]);
      } else {
        r := Err(ChainNotFound);
      }
    }

    /** Balance of `address` on `chainID` at the latest block, as the node reports it. */
    method GetBalanceByAddress(chainID: nat, address: string, node: Node) returns (r: Result<int>)
      ensures chainID !in connections ==> r == Err(Wrap("failed to get client for chain", ChainNotFound))
      ensures chainID in connections && node(connections[chainID], address).Balance? ==>
        r == Ok(node(connections[chainID], address).wei)
      ensures chainID in connections && node(connections[chainID], address).QueryFailed? ==>
        r.Err? && forall k :: Is(r.error, k) <==> Is(node(connections[chainID], address).cause, k)
      ensures r == BalanceOf(connections, chainID, address, node)
    {
      var client := GetClient(chainID);
      match client
      case Err(e) =>
        r := Err(Wrap("failed to get client for chain", e));
      case Ok(c) =>
        match node(c, address)
        case Balance(wei) => r := Ok(wei);
        case QueryFailed(e) => r := Err(Wrap("failed to fetch balance for address " + address, e));
    }
  }

  /**
   * Build the registry: dial every config that has an endpoint, in order.
   * The first failing dial aborts construction and no manager is returned.
   */
  method NewClientManager(configs: seq<ChainConfig>, dial: Dialer) returns (r: Result<ClientManager>)
    ensures r.Ok? <==> FirstFailure(configs, dial).None?
    ensures r.Ok? ==> fresh(r.value) && r.value.connections == Table(configs, dial)
    ensures r.Err? ==>
      var c := configs[FirstFailure(configs, dial).value];
      r.error == Wrap("failed to initialize client for chain",
                      Wrap("failed to connect to RPC URL " + c.rpcUrl, dial(c.rpcUrl).cause))
  {
    var manager := new ClientManager();
    var i := 0;
    while i < |configs|
      invariant 0 <= i <= |configs|
      invariant forall j :: 0 <= j < i ==> !Fails(configs[j], dial)
      invariant manager.connections == Table(configs[..i], dial)
    {
      var c := configs[i];
      assert configs[..i + 1][..i] == configs[..i];
      if c.rpcUrl == "" {
        i := i + 1;
        continue;
      }
      var err := manager.InitializeClient(c.chainID, c.rpcUrl, dial);
      if err.Some? {
        r := Err(Wrap("failed to initialize client for chain", err.value));
        return;
      }
      i := i + 1;
    }
    assert configs[..i] == configs;
    r := Ok(manager);
  }
}
