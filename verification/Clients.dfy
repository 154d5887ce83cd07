/**
 The shared client list of hawkd (crates/hawkd/src/main.rs): `accept_loop` pushes to it and
 `broadcast` walks it with an index, writing to each stream and removing the dead ones in place.
 Whether a write succeeds, and how many bytes of a failed write still arrived, is the environment's
 choice.
 */
module Clients {
  import opened Utf8

  /** The outcome of one `write_all`. */
  datatype Write = Written | Failed(arrived: nat)

  /**
   A connected stream: how many messages had been broadcast when it was pushed, what arrived of
   the banner before that, and everything that arrived on it so far.
   */
  datatype Client = Client(joined: nat, greeting: bytes, received: bytes)

  function Arrived(m: bytes, write: Write): bytes {
    match write
    case Written => m
    case Failed(n) => if n < |m| then m[..n] else m
  }

  function Offered(c: Client, m: bytes, write: Write): Client {
    c.(received := c.received + Arrived(m, write))
  }

  /** The clients whose write succeeds, in list order, each with the message appended. */
  function Survivors(clients: seq<Client>, m: bytes, writes: seq<Write>): seq<Client>
    requires |writes| == |clients|
  {
    if clients == [] then []
    else
      var n := |clients| - 1;
      Survivors(clients[..n], m, writes[..n]) + if writes[n].Written? then [Offered(clients[n], m, Written)] else []
  }

  /** The clients that are dropped, each with the part of the message that still arrived. */
  function Casualties(clients: seq<Client>, m: bytes, writes: seq<Write>): seq<Client>
    requires |writes| == |clients|
  {
    if clients == [] then []
    else
      var n := |clients| - 1;
      Casualties(clients[..n], m, writes[..n]) + if writes[n].Written? then [] else [Offered(clients[n], m, writes[n])]
  }

  class ClientList {
    var clients: seq<Client>
    ghost var dropped: seq<Client>

    constructor ()
      ensures clients == [] && dropped == []
    {
      clients := [];
      dropped := [];
    }

    /** The push of `accept_loop`. */
    method Push(c: Client)
      modifies this
      ensures clients == old(clients) + [c] && dropped == old(dropped)
    {
      clients := clients + [c];
    }

    /** `broadcast`: `writes[k]` is the outcome for the client that was k-th on entry. */
    method Broadcast(m: bytes, writes: seq<Write>)
      requires |writes| == |clients|
      modifies this
      ensures clients == Survivors(old(clients), m, writes)
      ensures dropped == old(dropped) + Casualties(old(clients), m, writes)
    {
      hide Survivors, Casualties, Offered;
      var i := 0;
      var k := 0;
      ghost var was, gone := clients, [];
      NobodyOffered(m);
      while i < |clients|
        invariant 0 <= i <= |clients| && 0 <= k <= |was|
        invariant clients[..i] == Survivors(was[..k], m, writes[..k])
        invariant clients[i..] == was[k..]
        invariant gone == Casualties(was[..k], m, writes[..k])
        invariant dropped == old(dropped)
      {
        ghost var before := clients;
        assert before[i] == before[i..][0] == was[k];
        assert before[i + 1..] == before[i..][1..] == was[k + 1..];
        OneOffered(was, m, writes, k);
        var remove := false;
        clients := clients[i := Offered(clients[i], m, writes[k])];
        if writes[k].Failed? {
          remove := true;
        }
        if remove {
          gone := gone + [clients[i]];
          clients := clients[..i] + clients[i + 1..];
          assert clients[..i] == before[..i] && clients[i..] == before[i + 1..];
        } else {
          assert clients[..i + 1] == before[..i] + [clients[i]] && clients[i + 1..] == before[i + 1..];
          i := i + 1;
        }
        k := k + 1;
      }
      assert was[..k] == was && writes[..k] == writes;
      assert clients[..i] == clients;
      dropped := dropped + gone;
    }
  }

  lemma NobodyOffered(m: bytes)
    ensures Survivors([], m, []) == [] && Casualties([], m, []) == []
  {
  }

  /** Offering the message to one more client puts it on one side. */
  lemma OneOffered(clients: seq<Client>, m: bytes, writes: seq<Write>, k: nat)
    requires k < |clients| == |writes|
    ensures
      var c := Offered(clients[k], m, writes[k]);
      var s, d := Survivors(clients[..k], m, writes[..k]), Casualties(clients[..k], m, writes[..k]);
      && Survivors(clients[..k + 1], m, writes[..k + 1]) == (if writes[k].Written? then s + [c] else s)
      && Casualties(clients[..k + 1], m, writes[..k + 1]) == (if writes[k].Written? then d else d + [c])
  {
    hide Offered;
    assert clients[..k + 1][..k] == clients[..k] && writes[..k + 1][..k] == writes[..k];
  }

  /** Every survivor is an old client with the whole message behind it. */
  lemma {:induction false} SurvivorOrigin(clients: seq<Client>, m: bytes, writes: seq<Write>, j: nat) returns (i: nat)
    requires |writes| == |clients|
    requires j < |Survivors(clients, m, writes)|
    ensures i < |clients| && writes[i].Written?
    ensures Survivors(clients, m, writes)[j] == Offered(clients[i], m, Written)
  {
    var n := |clients| - 1;
    if j < |Survivors(clients[..n], m, writes[..n])| {
      i := SurvivorOrigin(clients[..n], m, writes[..n], j);
    } else {
      i := n;
    }
  }

  lemma {:induction false} CasualtyOrigin(clients: seq<Client>, m: bytes, writes: seq<Write>, j: nat) returns (i: nat)
    requires |writes| == |clients|
    requires j < |Casualties(clients, m, writes)|
    ensures i < |clients| && writes[i].Failed?
    ensures Casualties(clients, m, writes)[j] == Offered(clients[i], m, writes[i])
  {
    var n := |clients| - 1;
    if j < |Casualties(clients[..n], m, writes[..n])| {
      i := CasualtyOrigin(clients[..n], m, writes[..n], j);
    } else {
      i := n;
    }
  }

  /** No client is lost or duplicated: each goes to exactly one side. */
  lemma {:induction false} BroadcastPartitions(clients: seq<Client>, m: bytes, writes: seq<Write>)
    requires |writes| == |clients|
    ensures |Survivors(clients, m, writes)| + |Casualties(clients, m, writes)| == |clients|
  {
    if clients != [] {
      var n := |clients| - 1;
      BroadcastPartitions(clients[..n], m, writes[..n]);
    }
  }

  /** Removal in place skips nobody: every client whose write succeeds is kept, with the message. */
  lemma {:induction false} WrittenSurvives(clients: seq<Client>, m: bytes, writes: seq<Write>, i: nat)
    requires |writes| == |clients|
    requires i < |clients| && writes[i].Written?
    ensures Offered(clients[i], m, Written) in Survivors(clients, m, writes)
  {
    var n := |clients| - 1;
    if i < n {
      WrittenSurvives(clients[..n], m, writes[..n], i);
    }
  }
}
