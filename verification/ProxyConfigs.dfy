/** The two loops of pkg/proxy/configs over maps, the wallet file and the observers, and what survives of the order. */
module ProxyConfigs {
  import opened Wrappers
  import opened Bytes
  import opened Integers
  import opened Pem
  import opened Orders
  import opened Text
  import Base16
  import Decimal
  import ObserverPorts

  /** An open file that may refuse a write after any prefix of it. */
  class OutputFile {
    var data: seq<byte>

    constructor ()
      ensures data == []
    {
      data := [];
    }

    method Write(s: seq<byte>) returns (ok: bool)
      modifies this
      ensures ok ==> data == old(data) + s
      ensures !ok ==> old(data) <= data && data < old(data) + s
    {
      var n :| 0 <= n <= |s|;
      data := data + s[..n];
      ok := n == |s|;
    }
  }

  lemma {:induction false} PrintBlocksAppend(blocks: seq<Block>, b: Block)
    ensures PrintBlocks(blocks + [b]) == PrintBlocks(blocks) + PrintBlock(b)
  {
    if blocks == [] {
      assert [] + [b] == [b] && [b][1..] == [];
      assert PrintBlocks([b]) == PrintBlock(b) + [];
    } else {
      assert (blocks + [b])[1..] == blocks[1..] + [b];
      PrintBlocksAppend(blocks[1..], b);
    }
  }

  function Printed(wallets: map<uint32, Wallet>, order: seq<uint32>): seq<byte>
    requires forall k :: k in order ==> k in wallets
  {
    PrintFile(Pick(wallets, order))
  }

  lemma {:induction false} PrintedAppend(
    wallets: map<uint32, Wallet>, order: seq<uint32>, shard: uint32, start: seq<byte>)
    requires shard in wallets && forall k :: k in order ==> k in wallets
    ensures forall k :: k in order + [shard] ==> k in wallets
    ensures start + Printed(wallets, order) + PrintBlock(BlockOf(wallets[shard])) ==
            start + Printed(wallets, order + [shard])
  {
    var ws, w := Pick(wallets, order), wallets[shard];
    assert Pick(wallets, order + [shard]) == ws + [w];
    assert BlocksOf(ws + [w]) == BlocksOf(ws) + [BlockOf(w)];
    PrintBlocksAppend(BlocksOf(ws), BlockOf(w));
    var p, q := Printed(wallets, order), PrintBlock(BlockOf(w));
    assert start + p + q == start + (p + q);
  }

  /** What is in a file that started as start when the block of the last wallet of order was cut short. */
  ghost predicate CutShort(start: seq<byte>, wallets: map<uint32, Wallet>, order: seq<uint32>, data: seq<byte>)
    requires forall k :: k in order ==> k in wallets
  {
    && order != []
    && start + Printed(wallets, order[..|order| - 1]) <= data
    && data < start + Printed(wallets, order)
  }

  /** One round of the loop: prints the block of one more wallet. */
  method EmitWallet(
    file: OutputFile, wallets: map<uint32, Wallet>, shard: uint32, ghost start: seq<byte>, ghost order: seq<uint32>)
    returns (ok: bool)
    requires shard in wallets && forall k :: k in order ==> k in wallets
    requires file.data == start + Printed(wallets, order)
    modifies file
    ensures forall k :: k in order + [shard] ==> k in wallets
    ensures ok ==> file.data == start + Printed(wallets, order + [shard])
    ensures !ok ==> CutShort(start, wallets, order + [shard], file.data)
  {
    PrintedAppend(wallets, order, shard, start);
    assert (order + [shard])[..|order|] == order;
    ok := file.Write(PrintBlock(BlockOf(wallets[shard])));
  }

  /**
   On success the file has grown by one block per wallet, in some order of the map; on failure
   by the whole blocks of the wallets visited before the failing one and part of that one.
   */
  method GeneratePemFromInitialAddress(file: OutputFile, wallets: map<uint32, Wallet>)
    returns (ok: bool, ghost order: seq<uint32>)
    modifies file
    ensures NoDuplicates(order) && forall k :: k in order ==> k in wallets
    ensures ok ==> IsOrderOf(order, wallets.Keys)
    ensures ok ==> file.data == old(file.data) + Printed(wallets, order)
    ensures !ok ==> CutShort(old(file.data), wallets, order, file.data)
  {
    order := [];
    var remaining := wallets.Keys;
    assert Pick(wallets, order) == [] && Printed(wallets, order) == [];
    assert file.data == old(file.data) + [];
    while remaining != {}
      invariant NoDuplicates(order) && remaining <= wallets.Keys
      invariant forall k :: k in order <==> k in wallets.Keys - remaining
      invariant file.data == old(file.data) + Printed(wallets, order)
      decreases remaining
    {
      var shard :| shard in remaining;
      remaining := remaining - {shard};
      var written := EmitWallet(file, wallets, shard, old(file.data), order);
      Extend(order, shard);
      order := order + [shard];
      if !written {
        return false, order;
      }
    }
    ok := true;
  }

  /**
   Whatever order the map was visited in, the file reads back as the wallets' keys: the keys in
   that order, and always the same bag of keys.
   */
  lemma {:induction false} OrderDoesNotMatter(
    wallets: map<uint32, Wallet>, keys: map<uint32, seq<byte>>, a: seq<uint32>, b: seq<uint32>)
    requires wallets.Keys == keys.Keys
    requires IsOrderOf(a, wallets.Keys) && IsOrderOf(b, wallets.Keys)
    requires forall k :: k in wallets ==> LF !in wallets[k].bech32
    requires forall k :: k in wallets ==> Base16.Lower(wallets[k].privateKeyHex) == Base16.Encode(keys[k])
    ensures KeysOfFile(Printed(wallets, a)).Some? && KeysOfFile(Printed(wallets, b)).Some?
    ensures KeysOfFile(Printed(wallets, a)).value == Pick(keys, a)
    ensures multiset(KeysOfFile(Printed(wallets, a)).value) ==
            multiset(KeysOfFile(Printed(wallets, b)).value)
  {
    FileRoundTrip(Pick(wallets, a), Pick(keys, a));
    FileRoundTrip(Pick(wallets, b), Pick(keys, b));
    SameMultiset(a, b, wallets.Keys);
    PickPermuted(keys, a, b);
  }

  const HTTP_PREFIX := "http://"

  datatype NodeData = NodeData(shardId: uint32, address: string, isSynced: bool)

  function ObserverOf(shardID: uint32, nodeAPIInterface: string): NodeData {
    NodeData(shardID, HTTP_PREFIX + nodeAPIInterface, true)
  }

  function Observers(restApiInterfaces: map<uint32, string>): map<uint32, NodeData> {
    map shardID | shardID in restApiInterfaces :: ObserverOf(shardID, restApiInterfaces[shardID])
  }

  /** One observer per shard, in some order of the map. */
  method BuildObservers(restApiInterfaces: map<uint32, string>)
    returns (observers: seq<NodeData>, ghost order: seq<uint32>)
    ensures IsOrderOf(order, restApiInterfaces.Keys)
    ensures observers == Pick(Observers(restApiInterfaces), order)
    ensures |observers| == |restApiInterfaces|
    ensures forall o :: o in observers ==>
      && o.shardId in restApiInterfaces && o.isSynced
      && o.address == "http://" + restApiInterfaces[o.shardId]
    ensures forall shardID :: shardID in restApiInterfaces ==> exists o :: o in observers && o.shardId == shardID
  {
    observers, order := [], [];
    var remaining := restApiInterfaces.Keys;
    while remaining != {}
      invariant NoDuplicates(order) && remaining <= restApiInterfaces.Keys
      invariant forall k :: k in order <==> k in restApiInterfaces.Keys - remaining
      invariant observers == Pick(Observers(restApiInterfaces), order)
      invariant |observers| + |remaining| == |restApiInterfaces.Keys|
      decreases remaining
    {
      var shardID :| shardID in remaining;
      remaining := remaining - {shardID};
      Extend(order, shardID);
      order := order + [shardID];
      observers := observers + [ObserverOf(shardID, restApiInterfaces[shardID])];
    }
    forall shardID | shardID in restApiInterfaces
      ensures exists o :: o in observers && o.shardId == shardID
    {
      assert shardID in order;
      var i :| 0 <= i < |order| && order[i] == shardID;
      assert observers[i] in observers;
    }
  }

  /** The observers are the same bag in every order. */
  lemma {:induction false} ObserversInAnyOrder(
    restApiInterfaces: map<uint32, string>, a: seq<uint32>, b: seq<uint32>)
    requires IsOrderOf(a, restApiInterfaces.Keys) && IsOrderOf(b, restApiInterfaces.Keys)
    ensures multiset(Pick(Observers(restApiInterfaces), a)) == multiset(Pick(Observers(restApiInterfaces), b))
  {
    SameMultiset(a, b, restApiInterfaces.Keys);
    PickPermuted(Observers(restApiInterfaces), a, b);
  }

  /** The address of an observer has one more colon than its interface and the same text after every later one. */
  lemma {:induction false} AddressParts(shardID: uint32, nodeAPIInterface: string)
    ensures var parts := Split(nodeAPIInterface, ':');
            Split(ObserverOf(shardID, nodeAPIInterface).address, ':') == ["http", "//" + parts[0]] + parts[1..]
  {
    var rest := "//" + nodeAPIInterface;
    assert HTTP_PREFIX + nodeAPIInterface == "http" + ":" + rest by {
      assert HTTP_PREFIX == "http" + ":" + "//";
    }
    SplitFirst("http", rest, ':');
    SplitPrefix("//", nodeAPIInterface, ':');
  }

  /**
   The address given to the proxy carries the port the observers endpoint reports: that port is
   reported exactly when it is what the third of three parts of the address reads as.
   */
  lemma {:induction false} AddressKeepsPort(shardID: uint32, nodeAPIInterface: string, port: int64)
    ensures var parts := Split(ObserverOf(shardID, nodeAPIInterface).address, ':');
            ObserverPorts.Port(nodeAPIInterface) == Ok(port) <==>
            |parts| == 3 && Decimal.Atoi(parts[2]) == Some(port)
  {
    AddressParts(shardID, nodeAPIInterface);
    var parts := Split(nodeAPIInterface, ':');
    assert |parts| > 1 ==> (["http", "//" + parts[0]] + parts[1..])[2] == parts[1];
  }
}
