/** The relay of server.js: a roster of at most two players, the identity
    each admitted connection is told, the fan-out of a received line to
    the other open connections, and the removal of a connection that
    closes. Connections are abstract ids; the WebSocket library's list of
    connections and their ready state are parameters. */
module Relay {
  import opened Board
  import opened Wire

  /** A WebSocket connection, compared by identity as the source does. */
  type ConnId = nat

  /** What a connecting client is sent: the refusal of a full game (an
      error payload, then the connection is closed), or its identity and
      the `init` line announcing it. */
  datatype Admission = Refused | Admitted(id: int, line: string)

  /** No connection occurs twice in s. */
  predicate Distinct(s: seq<ConnId>) {
    forall i, j :: 0 <= i < j < |s| ==> s[i] != s[j]
  }

  // ---------------------------------------------------------------------
  // players.filter(p => p !== ws)

  /** s without the occurrences of c, the others in their order. */
  function Without(s: seq<ConnId>, c: ConnId): seq<ConnId> {
    if |s| == 0 then []
    else (if s[0] == c then [] else [s[0]]) + Without(s[1..], c)
  }

  /** Exactly c is gone: the rest stays, and nothing is added. */
  lemma {:induction false} WithoutMembers(s: seq<ConnId>, c: ConnId)
    ensures forall x :: x in Without(s, c) <==> x in s && x != c
  {
    if |s| > 0 {
      WithoutMembers(s[1..], c);
      assert s == [s[0]] + s[1..];
    }
  }

  /** Removing a connection that is absent changes nothing. */
  lemma {:induction false} WithoutAbsent(s: seq<ConnId>, c: ConnId)
    requires c !in s
    ensures Without(s, c) == s
  {
    if |s| > 0 {
      WithoutAbsent(s[1..], c);
      assert s == [s[0]] + s[1..];
    }
  }

  /** Removing the connection at index i of a roster without repeats
      leaves the ones before it and the ones after it, in order. */
  lemma {:induction false} WithoutAt(s: seq<ConnId>, i: int)
    requires Distinct(s) && 0 <= i < |s|
    ensures Without(s, s[i]) == s[..i] + s[i + 1..]
  {
    if i == 0 {
      WithoutAbsent(s[1..], s[0]);
    } else {
      WithoutAt(s[1..], i - 1);
      assert s[1..][..i - 1] == s[1..i];
      assert s[1..][i..] == s[i + 1..];
      assert s[..i] == [s[0]] + s[1..i];
    }
  }

  /** A roster without repeats stays so after a removal. */
  lemma {:induction false} WithoutDistinct(s: seq<ConnId>, c: ConnId)
    requires Distinct(s)
    ensures Distinct(Without(s, c)) && |Without(s, c)| <= |s|
  {
    if |s| > 0 {
      WithoutDistinct(s[1..], c);
      WithoutMembers(s[1..], c);
      forall j | 1 <= j < |s| ensures s[j] != s[0] {
      }
      assert s[0] !in s[1..];
    }
  }

  // ---------------------------------------------------------------------
  // players.indexOf(ws)

  /** Array indexOf: the first index holding x, or -1 when x is absent. */
  method IndexOf(s: seq<ConnId>, x: ConnId) returns (i: int)
    ensures -1 <= i < |s|
    ensures i >= 0 ==> s[i] == x && x !in s[..i]
    ensures i == -1 <==> x !in s
  {
    i := 0;
    while i < |s|
      invariant 0 <= i <= |s| && x !in s[..i]
    {
      if s[i] == x {
        return;
      }
      assert s[..i + 1] == s[..i] + [s[i]];
      i := i + 1;
    }
    assert s[..i] == s;
    i := -1;
  }

  // ---------------------------------------------------------------------
  // The fan-out of a received line

  /** The sends the message handler makes, in the order of `clients`: the
      line, unchanged, to each open connection other than the sender. */
  function Deliveries(clients: seq<ConnId>, sender: ConnId, open: set<ConnId>, line: string): seq<(ConnId, string)> {
    if |clients| == 0 then []
    else
      var last := clients[|clients| - 1];
      Deliveries(clients[..|clients| - 1], sender, open, line)
      + (if last != sender && last in open then [(last, line)] else [])
  }

  /** Every send carries the received line unchanged to an open connection
      other than the sender, and every open connection other than the
      sender gets one. */
  lemma {:induction false} DeliveriesMeaning(clients: seq<ConnId>, sender: ConnId, open: set<ConnId>, line: string)
    ensures forall k :: 0 <= k < |Deliveries(clients, sender, open, line)| ==>
              var (to, sent) := Deliveries(clients, sender, open, line)[k];
              sent == line && to != sender && to in open && to in clients
    ensures forall c :: c in clients && c != sender && c in open ==> (c, line) in Deliveries(clients, sender, open, line)
  {
    if |clients| > 0 {
      var init := clients[..|clients| - 1];
      DeliveriesMeaning(init, sender, open, line);
      assert clients == init + [clients[|clients| - 1]];
    }
  }

  /** Each connection is sent the line at most once when `clients` has no
      repeats, as a set of connections has none. */
  lemma {:induction false} DeliveriesOnce(clients: seq<ConnId>, sender: ConnId, open: set<ConnId>, line: string)
    requires Distinct(clients)
    ensures forall j, k :: 0 <= j < k < |Deliveries(clients, sender, open, line)| ==>
              Deliveries(clients, sender, open, line)[j].0 != Deliveries(clients, sender, open, line)[k].0
  {
    if |clients| > 0 {
      var init := clients[..|clients| - 1];
      DeliveriesOnce(init, sender, open, line);
      DeliveriesMeaning(init, sender, open, line);
    }
  }

  /** The message handler: the loop over wss.clients. */
  method Relay(clients: seq<ConnId>, sender: ConnId, open: set<ConnId>, line: string)
    returns (sends: seq<(ConnId, string)>)
    ensures sends == Deliveries(clients, sender, open, line)
  {
    sends := [];
    for k := 0 to |clients|
      invariant sends == Deliveries(clients[..k], sender, open, line)
    {
      var client := clients[k];
      assert clients[..k + 1][..k] == clients[..k];
      if client != sender && client in open {
        sends := sends + [(client, line)];
      }
    }
    assert clients[..|clients|] == clients;
  }

  // ---------------------------------------------------------------------
  // The roster

  class Server {
    /** The `players` list: admitted connections in order of admission. */
    var players: seq<ConnId>

    ghost predicate Valid()
      reads this
    {
      |players| <= 2 && Distinct(players)
    }

    constructor ()
      ensures Valid() && players == []
    {
      players := [];
    }

    /** The connection handler for a new connection c: refused when two
        players are registered, otherwise appended and told its identity,
        its 1-based index in the roster (InitRoundTrip: the client reads
        the line back as that number). */
    method Connect(c: ConnId) returns (a: Admission)
      requires Valid() && c !in players
      modifies this
      ensures Valid()
      ensures |old(players)| >= 2 ==> a == Refused && players == old(players)
      ensures |old(players)| < 2 ==>
                players == old(players) + [c] && a == Admitted(|players|, InitText(|players|))
      ensures a.Admitted? ==> a.id == 1 || a.id == 2
    {
      if |players| >= 2 {
        return Refused;
      }
      players := players + [c];
      var index := IndexOf(players, c);
      var id := index + 1;
      return Admitted(id, InitText(id));
    }

    /** The close handler of an admitted connection c. */
    method Disconnect(c: ConnId)
      requires Valid()
      modifies this
      ensures Valid() && players == Without(old(players), c)
    {
      WithoutDistinct(players, c);
      players := Without(players, c);
    }
  }

  /** Identities are fixed at admission and never renumbered: after the
      first of two players leaves, the next connection is told 2, the
      identity the remaining player already holds. */
  method RejoinScenario(first: ConnId, second: ConnId, third: ConnId)
    returns (a1: Admission, a2: Admission, a3: Admission)
    requires first != second && second != third && first != third
    ensures a1.Admitted? && a1.id == 1
    ensures a2.Admitted? && a2.id == 2 && a3.Admitted? && a3.id == 2
  {
    var server := new Server();
    a1 := server.Connect(first);
    a2 := server.Connect(second);
    WithoutAt(server.players, 0);
    server.Disconnect(first);
    assert server.players == [second];
    a3 := server.Connect(third);
  }

  /** A third connection while both seats are taken is refused and leaves
      the roster as it was. */
  method FullScenario(first: ConnId, second: ConnId, third: ConnId)
    returns (a3: Admission, roster: seq<ConnId>)
    requires first != second && second != third && first != third
    ensures a3 == Refused && roster == [first, second]
  {
    var server := new Server();
    var _ := server.Connect(first);
    var _ := server.Connect(second);
    a3 := server.Connect(third);
    roster := server.players;
  }
}
