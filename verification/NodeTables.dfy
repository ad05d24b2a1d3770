/**
 The tables that one party fills while it connects to its peers: sockets by peer, cipher keys by
 peer, and the ring-ordered array of pairwise seeds.
 */
module NodeTables {
  import opened Maps

  type Bytes = seq<bv8>

  const KEYSIZE := 16
  const AES_BLOCK_SIZE := 16

  /** The random material of one connection: cipher key, initial vector, seed. */
  type KeyIV = b: Bytes | |b| == 2 * KEYSIZE + AES_BLOCK_SIZE witness seq(48, i => 0)

  datatype CipherContext = CipherContext(key: Bytes, iv: Bytes)

  function CipherKey(k: KeyIV): (r: CipherContext)
    ensures |r.key| == KEYSIZE && forall i | 0 <= i < 16 :: r.key[i] == k[i]
    ensures |r.iv| == AES_BLOCK_SIZE && forall i | 0 <= i < 16 :: r.iv[i] == k[16 + i]
  {
    CipherContext(k[..KEYSIZE], k[KEYSIZE..KEYSIZE + AES_BLOCK_SIZE])
  }

  function PrgSeed(k: KeyIV): (r: Bytes)
    ensures |r| == KEYSIZE && forall i | 0 <= i < 16 :: r[i] == k[32 + i]
  {
    k[KEYSIZE + AES_BLOCK_SIZE..]
  }

  /** Key and vector first, then the seed: nothing is used twice and nothing is left over. */
  lemma MaterialParts(k: KeyIV)
    ensures CipherKey(k).key + CipherKey(k).iv + PrgSeed(k) == k
  {
  }

  /** A descriptor stands for the connection it belongs to. */
  datatype Socket = Socket(dialer: nat, acceptor: nat)

  datatype Tables = Tables(peer2sock: map<nat, Socket>, sock2peer: map<Socket, nat>, ciphers: map<nat, CipherContext>,
                           prgSeeds: seq<Bytes>)

  function EmptyTables(peers: nat): Tables {
    Tables(map[], map[], map[], seq(peers, i => seq(KEYSIZE, j => 0)))
  }

  function WithSocket(x: Tables, peer: nat, sock: Socket): Tables {
    x.(peer2sock := InsertNew(x.peer2sock, peer, sock), sock2peer := InsertNew(x.sock2peer, sock, peer))
  }

  /** The slot of the seed array that `init_keys` uses for `peer`. */
  function PrgSlot(id: int, peer: int, peers: int): int {
    var threshold := peers / 2;
    var index := if id - peer < 0 then id - peer + peers + 1 else id - peer;
    if 1 <= index <= threshold then threshold - index else threshold + peers - index
  }

  predicate Parties(id: int, peer: int, peers: int) {
    1 <= id <= peers + 1 && 1 <= peer <= peers + 1 && id != peer
  }

  function WithKeys(x: Tables, id: nat, peer: nat, peers: nat, k: KeyIV): Tables
    requires |x.prgSeeds| == peers && peers % 2 == 0 && Parties(id, peer, peers)
  {
    x.(ciphers := InsertNew(x.ciphers, peer, CipherKey(k)),
       prgSeeds := x.prgSeeds[PrgSlot(id, peer, peers) := PrgSeed(k)])
  }

  // ----- the slots

  /** The party in slot `s` of `id`: first the `t` before it, then the `t` after it on the ring. */
  function SlotOwner(id: int, s: int, peers: int): int {
    var t := peers / 2;
    var q := if s < t then id - t + s else id + 1 + s - t;
    if q < 1 then q + peers + 1 else if q > peers + 1 then q - peers - 1 else q
  }

  /** Peers and slots correspond one to one, in ring order. */
  lemma SlotBijection(id: int, peers: int)
    requires peers % 2 == 0 && 1 <= id <= peers + 1
    ensures forall q | Parties(id, q, peers) ::
              0 <= PrgSlot(id, q, peers) < peers && SlotOwner(id, PrgSlot(id, q, peers), peers) == q
    ensures forall s | 0 <= s < peers ::
              Parties(id, SlotOwner(id, s, peers), peers) && PrgSlot(id, SlotOwner(id, s, peers), peers) == s
  {
  }

  /** The party `d` places before has slot `t - d`, and the one `d` places after it has `t - 1 + d`. */
  lemma SlotsByDistance(id: int, peer: int, peers: int, d: int)
    requires peers % 2 == 0 && Parties(id, peer, peers) && 1 <= d <= peers / 2
    ensures id - peer == d || id - peer + peers + 1 == d ==> PrgSlot(id, peer, peers) == peers / 2 - d
    ensures peer - id == d || peer - id + peers + 1 == d ==> PrgSlot(id, peer, peers) == peers / 2 - 1 + d
  {
  }

  /** Two parties keep each other's seed in mirrored slots. */
  lemma SlotsMirror(p: int, q: int, peers: int)
    requires peers % 2 == 0 && Parties(p, q, peers)
    ensures PrgSlot(q, p, peers) == peers - 1 - PrgSlot(p, q, peers)
  {
  }

  // ----- the order of network operations

  /** `Dial` repeats until the party answers; `Read` reads the material of that connection; `Bind`
      starts to listen; `Take` takes the oldest waiting connection, labels it, and writes the material
      into it. */
  datatype Operation = Dial(peer: nat) | Read(peer: nat) | Bind | Take(peer: nat, material: KeyIV)

  function RequestOperations(id: nat, d: nat): (r: seq<Operation>)
    ensures |r| == 2 * d
  {
    seq(2 * d, i requires 0 <= i < 2 * d => if i % 2 == 0 then Dial(id + i / 2 + 1) else Read(id + i / 2 + 1))
  }

  lemma NextRequest(id: nat, d: nat)
    ensures RequestOperations(id, d + 1) == RequestOperations(id, d) + [Dial(id + d + 1)] + [Read(id + d + 1)]
  {
  }

  function AcceptOperations(id: nat, random: seq<KeyIV>): (r: seq<Operation>)
    requires |random| < id
    ensures |r| == |random|
  {
    seq(|random|, k requires 0 <= k < |random| => Take(id - (k + 1), random[k]))
  }

  /** All requests in ascending order, then one listen, then all accepts in descending order. */
  function ConnectOperations(id: nat, peers: nat, random: seq<KeyIV>): (r: seq<Operation>)
    requires 1 <= id <= peers + 1 && |random| == id - 1
  {
    RequestOperations(id, peers + 1 - id) + if id == 1 then [] else [Bind] + AcceptOperations(id, random)
  }

  // ----- the object

  class Node {
    const id: nat
    const peers: nat
    var peer2sock: map<nat, Socket>
    var sock2peer: map<Socket, nat>
    var ciphers: map<nat, CipherContext>
    var prgSeeds: seq<Bytes>

    ghost predicate Valid()
      reads this
    {
      |prgSeeds| == peers && peers % 2 == 0 && 1 <= id <= peers + 1
    }

    ghost function State(): Tables
      reads this
    {
      Tables(peer2sock, sock2peer, ciphers, prgSeeds)
    }

    constructor (id: nat, peers: nat)
      requires peers % 2 == 0 && 1 <= id <= peers + 1
      ensures Valid() && this.id == id && this.peers == peers && State() == EmptyTables(peers)
    {
      this.id, this.peers := id, peers;
      peer2sock, sock2peer, ciphers := map[], map[], map[];
      prgSeeds := seq(peers, i => seq(KEYSIZE, j => 0));
    }

    /** `init_keys`. */
    method InitKeys(peer: nat, keyIV: KeyIV)
      requires Valid() && Parties(id, peer, peers)
      modifies this
      ensures Valid() && State() == WithKeys(old(State()), id, peer, peers, keyIV)
      ensures 0 <= PrgSlot(id, peer, peers) < peers && prgSeeds[PrgSlot(id, peer, peers)] == keyIV[32..48]
      ensures peer in ciphers && (peer !in old(ciphers) ==> ciphers[peer] == CipherContext(keyIV[..16], keyIV[16..32]))
    {
      var prg_seed_key := PrgSeed(keyIV);
      var threshold := peers / 2;
      var index: int := id - peer;
      if index < 0 {
        index := index + peers + 1;
      }
      if 1 <= index <= threshold {
        prgSeeds := prgSeeds[threshold - index := prg_seed_key];
      } else {
        prgSeeds := prgSeeds[threshold + peers - index := prg_seed_key];
      }
      if peer !in ciphers {
        ciphers := ciphers[peer := CipherKey(keyIV)];
      }
    }

    method AddSocket(peer: nat, sock: Socket)
      requires Valid()
      modifies this
      ensures Valid() && State() == WithSocket(old(State()), peer, sock)
    {
      if peer !in peer2sock {
        peer2sock := peer2sock[peer := sock];
      }
      if sock !in sock2peer {
        sock2peer := sock2peer[sock := peer];
      }
    }

    /** `requestConnection`: `socks[i]` is the connection that the `i`-th successful dial opens and
        `read[i]` what is then read from it. */
    method RequestConnection(numOfPeers: nat, socks: seq<Socket>, read: seq<KeyIV>) returns (ops: seq<Operation>)
      requires Valid() && id + numOfPeers <= peers + 1 && |socks| == |read| == numOfPeers
      modifies this
      ensures Valid() && State() == AfterRequests(old(State()), id, peers, socks, read)
      ensures ops == RequestOperations(id, numOfPeers)
    {
      hide RequestOperations, WithKeys, WithSocket, PrgSlot;
      assert RequestOperations(id, 0) == [];
      ops := [];
      for i := 0 to numOfPeers
        invariant Valid() && State() == AfterRequests(old(State()), id, peers, socks[..i], read[..i])
        invariant ops == RequestOperations(id, i)
      {
        assert socks[..i + 1][..i] == socks[..i] && read[..i + 1][..i] == read[..i];
        var ID := id + i + 1;
        NextRequest(id, i);
        ops := ops + [Dial(ID)];
        AddSocket(ID, socks[i]);
        ops := ops + [Read(ID)];
        InitKeys(ID, read[i]);
      }
      assert socks[..numOfPeers] == socks && read[..numOfPeers] == read;
    }

    /** `acceptPeers`: `socks[i]` is the `i`-th connection taken from the backlog and `random[i]` the
        material drawn for it. The label is the position. */
    method AcceptPeers(numOfPeers: nat, socks: seq<Socket>, random: seq<KeyIV>) returns (ops: seq<Operation>)
      requires Valid() && numOfPeers < id && |socks| == |random| == numOfPeers
      modifies this
      ensures Valid() && State() == AfterAccepts(old(State()), id, peers, socks, random)
      ensures ops == [Bind] + AcceptOperations(id, random)
    {
      hide WithKeys, WithSocket, PrgSlot;
      ops := [Bind];
      for i := 0 to numOfPeers
        invariant Valid() && State() == AfterAccepts(old(State()), id, peers, socks[..i], random[..i])
        invariant ops == [Bind] + AcceptOperations(id, random[..i])
      {
        assert socks[..i + 1][..i] == socks[..i] && random[..i + 1][..i] == random[..i];
        AddSocket(id - (i + 1), socks[i]);
        var peer := id - (i + 1);
        ops := ops + [Take(peer, random[i])];
        InitKeys(peer, random[i]);
      }
      assert socks[..numOfPeers] == socks && random[..numOfPeers] == random;
    }

    /** `connectToPeers`: all requests, then all accepts. */
    method ConnectToPeers(dialed: seq<Socket>, read: seq<KeyIV>, accepted: seq<Socket>, random: seq<KeyIV>)
      returns (ops: seq<Operation>)
      requires Valid() && |dialed| == |read| == peers + 1 - id && |accepted| == |random| == id - 1
      modifies this
      ensures Valid() && ops == ConnectOperations(id, peers, random)
      ensures State() == AfterAccepts(AfterRequests(old(State()), id, peers, dialed, read), id, peers, accepted, random)
    {
      ops := [];
      for i := 1 to peers + 2
        invariant Valid()
        invariant i <= id ==> State() == old(State()) && ops == []
        invariant i > id ==> ops == ConnectOperations(id, peers, random)
        invariant i > id ==>
            State() == AfterAccepts(AfterRequests(old(State()), id, peers, dialed, read), id, peers, accepted, random)
      {
        if id == i {
          if i != peers + 1 {
            ops := RequestConnection(peers + 1 - i, dialed, read);
          }
          if i != 1 {
            var more := AcceptPeers(i - 1, accepted, random);
            ops := ops + more;
          }
        }
      }
    }
  }

  function AfterRequests(x: Tables, id: nat, peers: nat, socks: seq<Socket>, read: seq<KeyIV>): (r: Tables)
    requires |x.prgSeeds| == peers && peers % 2 == 0 && 1 <= id && id + |socks| <= peers + 1 && |socks| == |read|
    ensures |r.prgSeeds| == peers
    decreases |socks|
  {
    if socks == [] then x
    else
      var i := |socks| - 1;
      WithKeys(WithSocket(AfterRequests(x, id, peers, socks[..i], read[..i]), id + i + 1, socks[i]),
               id, id + i + 1, peers, read[i])
  }

  function AfterAccepts(x: Tables, id: nat, peers: nat, socks: seq<Socket>, random: seq<KeyIV>): (r: Tables)
    requires |x.prgSeeds| == peers && peers % 2 == 0 && |socks| < id <= peers + 1 && |socks| == |random|
    ensures |r.prgSeeds| == peers
    decreases |socks|
  {
    if socks == [] then x
    else
      var i := |socks| - 1;
      WithKeys(WithSocket(AfterAccepts(x, id, peers, socks[..i], random[..i]), id - (i + 1), socks[i]),
               id, id - (i + 1), peers, random[i])
  }
}
