/** layers/message_layer.py: matching of messages by message id and token. */
module MessageLayer {

  import opened Wrappers
  import opened Bytes
  import opened BlockTables
  import opened Messages
  import opened BlockLayer

  /** str_append_hash of (host, port, message id), taken to be injective. */
  datatype MidKey = MidKey(host: string, port: nat, mid: Option<nat>)

  function MidKeyOf(e: Endpoint, mid: Option<nat>): MidKey { MidKey(e.host, e.port, mid) }

  lemma MidKeysAreTuples(e: Endpoint, mid: Option<nat>, e': Endpoint, mid': Option<nat>)
    ensures MidKeyOf(e, mid) == MidKeyOf(e', mid') <==> e == e' && mid == mid'
  {
  }

  const MID_MODULUS := 65535

  function NextMid(mid: nat): nat { (mid + 1) % MID_MODULUS }

  /** The message id found after n fetches. */
  function MidAfter(start: nat, n: nat): nat {
    if n == 0 then start else NextMid(MidAfter(start, n - 1))
  }

  lemma {:induction false} MidAfterIsModular(start: nat, n: nat)
    requires start < MID_MODULUS
    ensures MidAfter(start, n) == (start + n) % MID_MODULUS
  {
    if n > 0 {
      MidAfterIsModular(start, n - 1);
    }
  }

  /** Message ids stay in range, and any 65535 fetched in a row are pairwise distinct. */
  lemma MidsAreDistinct(start: nat, i: nat, j: nat)
    requires start < 65535 && i < j < i + 65535
    ensures MidAfter(start, i) < 65535
    ensures MidAfter(start, i) != MidAfter(start, j)
  {
    MidAfterIsModular(start, i);
    MidAfterIsModular(start, j);
  }

  /** The token of a message that needs one and has none is drawn by the caller. */
  class MessageLayer {
    var transactions: map<MidKey, Transaction>
    var transactionsToken: map<Key, Transaction>
    var transactionsSent: map<MidKey, Transaction>
    var transactionsSentToken: map<Key, Transaction>
    var currentMid: nat

    /** The transactions of incoming and of outgoing requests, and the requests of the latter. */
    ghost var incoming: set<Transaction>
    ghost var outgoing: set<Transaction>
    ghost var requests: set<Request>

    constructor (startingMid: nat)
      ensures Valid() && currentMid == startingMid
      ensures transactions == map[] && transactionsToken == map[]
      ensures incoming == {} && outgoing == {} && requests == {}
    {
      transactions, transactionsToken, transactionsSent, transactionsSentToken := map[], map[], map[], map[];
      currentMid := startingMid;
      incoming, outgoing, requests := {}, {}, {};
    }

    /** Incoming and outgoing transactions share neither transactions nor requests. */
    ghost predicate Filed()
      reads this, incoming`request, outgoing`request
    {
      && (forall k :: k in transactions ==> transactions[k] in incoming)
      && (forall k :: k in transactionsToken ==> transactionsToken[k] in incoming)
      && (forall k :: k in transactionsSent ==> transactionsSent[k] in outgoing)
      && (forall k :: k in transactionsSentToken ==> transactionsSentToken[k] in outgoing)
      && (forall t :: t in outgoing ==> t.request in requests)
      && (forall t :: t in incoming ==> t.request !in requests)
    }

    /** Every outgoing transaction is filed under the token that its request carries. */
    ghost predicate TokensMatch()
      reads this, outgoing`request, requests`token
      requires forall k :: k in transactionsSentToken ==> transactionsSentToken[k] in outgoing
      requires forall t :: t in outgoing ==> t.request in requests
    {
      && (forall r :: r in requests ==> r.token.Some?)
      && (forall k :: k in transactionsSentToken ==> transactionsSentToken[k].request.token == k.token)
    }

    ghost predicate Valid()
      reads this, incoming`request, outgoing`request, requests`token
    {
      Filed() && TokensMatch()
    }

    /** The layer depends on messages only through the requests of its transactions and their tokens. */
    twostate lemma KeepsValid()
      requires old(Valid()) && old(allocated(this))
      requires transactions == old(transactions) && transactionsToken == old(transactionsToken)
      requires transactionsSent == old(transactionsSent) && transactionsSentToken == old(transactionsSentToken)
      requires incoming == old(incoming) && outgoing == old(outgoing) && requests == old(requests)
      requires forall t :: t in incoming ==> t.request == old(t.request)
      requires forall t :: t in outgoing ==> t.request == old(t.request)
      requires forall r :: r in requests ==> r.token == old(r.token)
      ensures Valid()
    {
    }

    method FetchMid() returns (mid: nat)
      requires Valid()
      modifies this`currentMid
      ensures Valid()
      ensures mid == old(currentMid) && currentMid == (mid + 1) % 65535
    {
      mid := currentMid;
      currentMid := currentMid + 1;
      currentMid := currentMid % MID_MODULUS;
    }

    // ------------------------------------------------------------- requests in

    /** An earlier transaction of the token that already has a response, such as a running block transfer. */
    predicate Continues(m: Msg)
      reads this, transactionsToken.Values
    {
      var key := KeyOf(m.source, m.token);
      key in transactionsToken && transactionsToken[key].response != null
    }

    ghost function Responses(): set<Response>
      reads this, incoming`response
    {
      set t | t in incoming && t.response != null :: t.response
    }

    /** The exchange that a request starts or continues, and whether a resource has answered it before. */
    ghost function Continued(m: Msg): (Exchange, bool)
      requires Valid()
      reads this, incoming, outgoing`request, requests`token, transactionsToken.Values, Responses()
      reads set t | t in incoming :: t.request
    {
      if Continues(m) then
        var t := transactionsToken[KeyOf(m.source, m.token)];
        (t.View().(request := m), t.resource)
      else (Exchange(m, None, false, false), false)
    }

    method ReceiveRequest(request: Request, now: real) returns (transaction: Transaction)
      requires Valid() && request !in requests
      modifies this`transactions, this`transactionsToken, this`incoming, incoming`request, request`timestamp
      modifies set t | t in incoming :: t.request`duplicated
      ensures Valid() && fresh(incoming - old(incoming)) && incoming == old(incoming) + {transaction}
      ensures forall t :: t in old(incoming) && t != transaction ==> t.request == old(t.request)
      ensures var m := old(request.Contents());
              var known := old(MidKey(request.source.host, request.source.port, request.mid) in transactions);
              if m.mid.Some? && m.mid.value != 0 && known then
                && transaction == old(transactions[MidKeyOf(m.source, m.mid)])
                && transaction.request == old(transactions[MidKeyOf(m.source, m.mid)].request)
                && transaction.request.duplicated
                && transactions == old(transactions) && transactionsToken == old(transactionsToken)
              else
                && transaction.request == request && request.timestamp == now
                && transactions == old(transactions)[MidKeyOf(m.source, m.mid) := transaction]
                && transactionsToken == old(transactionsToken)[KeyOf(m.source, m.token) := transaction]
                && (transaction.View(), transaction.resource) == old(Continued(m))
                && (transaction.response == null || transaction.response in old(Responses()))
                && (if old(Continues(m)) then transaction == old(transactionsToken[KeyOf(m.source, m.token)])
                    else fresh(transaction))
                && (fresh(transaction) <==>
                      !old(var key := Key(request.source.host, request.source.port, request.token);
                           key in transactionsToken && transactionsToken[key].response != null))
                && (fresh(transaction) ==>
                      transaction.View() == Exchange(m, None, false, false) && !transaction.resource)
    {
      hide Valid;
      IncomingEntries();
      var keyMid := MidKeyOf(request.source, request.mid);
      var keyToken := KeyOf(request.source, request.token);
      if request.mid.Some? && request.mid.value != 0 && keyMid in transactions {
        // Duplicated
        transaction := transactions[keyMid];
        transaction.request.duplicated := true;
        return;
      }
      request.timestamp := now;
      if keyToken in transactionsToken && transactionsToken[keyToken].response != null {
        transaction := transactionsToken[keyToken];
        Renew(transaction, request);
      } else {
        transaction := new Transaction(request, now);
        FileToken(keyToken, transaction);
      }
      File(keyMid, transaction);
    }

    lemma IncomingEntries()
      requires Valid()
      ensures forall k :: k in transactions ==> transactions[k] in incoming
      ensures forall k :: k in transactionsToken ==> transactionsToken[k] in incoming
    {
    }

    method Renew(transaction: Transaction, request: Request)
      requires Valid() && transaction in incoming && request !in requests
      modifies transaction`request
      ensures Valid() && transaction.request == request
    {
      transaction.request := request;
    }

    method FileToken(key: Key, transaction: Transaction)
      requires Valid() && transaction.request !in requests && transaction !in outgoing
      modifies this`transactionsToken, this`incoming
      ensures Valid() && incoming == old(incoming) + {transaction}
      ensures transactionsToken == old(transactionsToken)[key := transaction]
    {
      incoming := incoming + {transaction};
      transactionsToken := transactionsToken[key := transaction];
    }

    // ------------------------------------------------------------ responses out

    /**
      Give an outgoing response its type, its id and, when it travels on its own, its token.
      Without a response the transaction is only marked completed.
     */
    method SendResponse(transaction: Transaction)
      requires Valid() && transaction in incoming
      modifies this`transactions, this`currentMid, transaction`completed, transaction.response
      modifies transaction.request`acknowledged, transaction.request`timeouted
      modifies transaction.request`rejected, transaction.request`cancelled
      ensures Valid()
      ensures transaction.response == null ==>
        && transaction.completed && currentMid == old(currentMid) && transactions == old(transactions)
        && transaction.request.acknowledged == old(transaction.request.acknowledged)
      ensures transaction.response != null ==>
        var r, q := transaction.response, transaction.request;
        var piggyback := old(r.typ.None? && q.typ == Some(CON) && !q.acknowledged);
        var m := old(r.Contents());
        var own := if piggyback then q.mid else m.mid;
        var typ := if m.typ.Some? then m.typ else if piggyback then Some(ACK)
                   else if q.typ == Some(NON) then Some(NON) else Some(CON);
        && r.Contents() == m.(typ := typ, mid := if own.Some? then own else Some(old(currentMid)),
                              token := if m.typ.None? && typ == Some(CON) then q.token else m.token)
        && currentMid == (if own.Some? then old(currentMid) else NextMid(old(currentMid)))
        && transactions == (if own.Some? then old(transactions)
                            else old(transactions)[MidKeyOf(r.destination, r.mid) := transaction])
        && transaction.completed == (old(transaction.completed) || piggyback)
        && q.acknowledged
    {
      hide Valid;
      if transaction.response == null {
        transaction.completed := true;
        return;
      }
      var request, response := transaction.request, transaction.response;
      var m := response.Contents();
      if m.typ.None? {
        if request.typ == Some(CON) && !request.acknowledged {
          m := m.(typ := Some(ACK), mid := request.mid);
          response.acknowledged := true;
          transaction.completed := true;
        } else if request.typ == Some(NON) {
          m := m.(typ := Some(NON));
        } else {
          m := m.(typ := Some(CON), token := request.token);
        }
      }
      request.SetAcknowledged(true);
      if m.mid.None? {
        var mid := FetchMid();
        m := m.(mid := Some(mid));
        File(MidKeyOf(m.destination, m.mid), transaction);
      }
      response.Assign(m);
    }

    method File(key: MidKey, transaction: Transaction)
      requires Valid() && transaction in incoming
      modifies this`transactions
      ensures Valid() && transactions == old(transactions)[key := transaction]
    {
      transactions := transactions[key := transaction];
    }

    // ------------------------------------------------------------- requests out

    /** drawn stands for the random token that a request without one is given. */
    method SendRequest(request: Request, now: real, drawn: bytes) returns (transaction: Transaction)
      requires Valid() && forall t :: t in incoming ==> t.request != request
      modifies this, request`timestamp, request`typ, request`mid, request`token
      ensures Valid() && fresh(outgoing - old(outgoing)) && requests == old(requests) + {request}
      ensures incoming == old(incoming)
      ensures transactions == old(transactions) && transactionsToken == old(transactionsToken)
      ensures fresh(transaction) && transaction in outgoing
      ensures transaction.request == request && transaction.response == null
      ensures !transaction.completed && !transaction.blockTransfer
      ensures request.token == if old(request.token).Some? then old(request.token) else Some(drawn)
      ensures request.typ == if old(request.typ).Some? then old(request.typ) else Some(CON)
      ensures if old(request.mid).Some? then request.mid == old(request.mid) && currentMid == old(currentMid)
              else request.mid == Some(old(currentMid)) && currentMid == NextMid(old(currentMid))
      ensures transactionsSent == old(transactionsSent)[MidKeyOf(request.destination, request.mid) := transaction]
      ensures transactionsSentToken
              == old(transactionsSentToken)[KeyOf(request.destination, request.token) := transaction]
    {
      hide Valid;
      OutgoingOnly();
      Stamp(request, now);
      if request.token.None? {
        SetToken(request, drawn);
      }
      transaction := new Transaction(request, now);
      FileSent(MidKeyOf(request.destination, request.mid), KeyOf(request.destination, request.token), transaction);
    }

    method Stamp(request: Request, now: real)
      requires Valid()
      modifies this`currentMid, request`timestamp, request`typ, request`mid
      ensures Valid() && request.timestamp == now
      ensures request.typ == if old(request.typ).Some? then old(request.typ) else Some(CON)
      ensures if old(request.mid).Some? then request.mid == old(request.mid) && currentMid == old(currentMid)
              else request.mid == Some(old(currentMid)) && currentMid == NextMid(old(currentMid))
    {
      hide Valid;
      request.timestamp := now;
      if request.typ.None? {
        request.typ := Some(CON);
      }
      if request.mid.None? {
        var mid := FetchMid();
        request.mid := Some(mid);
      }
    }

    lemma OutgoingOnly()
      requires Valid()
      ensures outgoing !! incoming
    {
    }

    method SetToken(request: Request, drawn: bytes)
      requires Valid() && request.token.None?
      modifies request`token
      ensures Valid() && request.token == Some(drawn)
    {
      request.token := Some(drawn);
    }

    method FileSent(keyMid: MidKey, keyToken: Key, transaction: Transaction)
      requires Valid() && transaction !in incoming && keyToken.token == transaction.request.token
               && keyToken.token.Some?
      requires forall t :: t in incoming ==> t.request != transaction.request
      modifies this`transactionsSent, this`transactionsSentToken, this`outgoing, this`requests
      ensures Valid() && outgoing == old(outgoing) + {transaction} && requests == old(requests) + {transaction.request}
      ensures transactionsSent == old(transactionsSent)[keyMid := transaction]
      ensures transactionsSentToken == old(transactionsSentToken)[keyToken := transaction]
    {
      outgoing, requests := outgoing + {transaction}, requests + {transaction.request};
      transactionsSent := transactionsSent[keyMid := transaction];
      transactionsSentToken := transactionsSentToken[keyToken := transaction];
    }

    // ------------------------------------------------------------- responses in

    /** The transaction filed under a token, if its request carries that token. */
    function ByToken(key: Key, token: Token): Transaction?
      reads this, incoming`request, outgoing`request, requests`token
      requires Valid()
    {
      if key in transactionsSentToken && token == transactionsSentToken[key].request.token then
        transactionsSentToken[key]
      else null
    }

    /** The transaction that a response belongs to; null when it matches none. */
    function Matching(m: Msg): Transaction?
      reads this, incoming`request, outgoing`request, requests`token
      requires Valid()
    {
      var keyMid := MidKeyOf(m.source, m.mid);
      if (m.typ == Some(ACK) || m.typ == Some(RST)) && keyMid in transactionsSent then
        if m.token != transactionsSent[keyMid].request.token then null else transactionsSent[keyMid]
      else if KeyOf(m.source, m.token) in transactionsSentToken then
        transactionsSentToken[KeyOf(m.source, m.token)]
      else ByToken(KeyOf(m.destination, m.token), m.token)
    }

    /** Whatever path finds it, a matched transaction's request carries the token of the response. */
    lemma MatchedTokensAgree(m: Msg)
      requires Valid()
      ensures var t := Matching(m); t != null ==> t in outgoing && t.request.token == m.token
    {
    }

    /**
      No response that belongs to a known request is missed. An acknowledgement or a reset with a
      known id goes to the transaction of that id, if the tokens agree; any other response to the one
      filed for its source and token, and only then to the one filed for its destination and token.
     */
    lemma MatchingIsComplete(m: Msg)
      requires Valid()
      ensures var byMid := MidKey(m.source.host, m.source.port, m.mid);
              var bySource := Key(m.source.host, m.source.port, m.token);
              var byDestination := Key(m.destination.host, m.destination.port, m.token);
              if m.typ in {Some(ACK), Some(RST)} && byMid in transactionsSent then
                && (transactionsSent[byMid].request.token == m.token ==> Matching(m) == transactionsSent[byMid])
                && (transactionsSent[byMid].request.token != m.token ==> Matching(m) == null)
              else if bySource in transactionsSentToken then Matching(m) == transactionsSentToken[bySource]
              else if byDestination in transactionsSentToken then Matching(m) == transactionsSentToken[byDestination]
              else Matching(m) == null
    {
    }

    /**
      After a request has been sent, a response from its destination with its token finds it, unless
      it acknowledges or resets another message id that is known.
     */
    twostate lemma ResponseFindsRequest(new transaction: Transaction, m: Msg)
      requires Valid() && transaction.request in requests
      requires var q := transaction.request;
               && q.token.Some? && q.token == m.token && q.destination == m.source
               && transactionsSent == old(transactionsSent)[MidKeyOf(q.destination, q.mid) := transaction]
               && transactionsSentToken == old(transactionsSentToken)[KeyOf(q.destination, q.token) := transaction]
      ensures (m.mid == transaction.request.mid || m.typ !in {Some(ACK), Some(RST)}
               || MidKeyOf(m.source, m.mid) !in old(transactionsSent))
              ==> Matching(m) == transaction
    {
    }

    method ReceiveResponse(response: Response) returns (transaction: Transaction?, sendAck: bool)
      requires Valid()
      modifies outgoing`completed, outgoing`response
      modifies set t | t in outgoing :: t.request`acknowledged
      modifies set t | t in outgoing :: t.request`timeouted
      modifies set t | t in outgoing :: t.request`rejected
      modifies set t | t in outgoing :: t.request`cancelled
      ensures Valid()
      ensures transaction == old(Matching(response.Contents()))
      ensures transaction != null ==>
        && transaction in outgoing && transaction.request == old(transaction.request)
        && transaction.request.token == response.token
        && transaction.response == response && transaction.completed
        && transaction.request.acknowledged && !transaction.request.timeouted
        && !transaction.request.rejected && !transaction.request.cancelled
        && sendAck == (response.typ == Some(CON))
      ensures forall t :: t in outgoing && t != transaction ==>
                t.response == old(t.response) && t.completed == old(t.completed)
    {
      hide TokensMatch;
      MatchedTokensAgree(response.Contents());
      var keyMid := MidKeyOf(response.source, response.mid);
      var keyToken := KeyOf(response.source, response.token);
      var keyTokenMulticast := KeyOf(response.destination, response.token);
      if (response.typ == Some(ACK) || response.typ == Some(RST)) && keyMid in transactionsSent {
        transaction := transactionsSent[keyMid];
        if response.token != transaction.request.token {
          return null, false;
        }
      } else if keyToken in transactionsSentToken {
        transaction := transactionsSentToken[keyToken];
      } else if keyTokenMulticast in transactionsSentToken {
        transaction := transactionsSentToken[keyTokenMulticast];
        if response.token != transaction.request.token {
          return null, false;
        }
      } else {
        return null, false;
      }
      sendAck := response.typ == Some(CON);
      transaction.request.SetAcknowledged(true);
      transaction.completed := true;
      transaction.response := response;
    }

    // ----------------------------------------------------------------- purging

    /** A transaction that purge removes. */
    predicate Gone(t: Transaction, now: real, timeout: real)
      reads t
    {
      t.timestamp + timeout < now || t.completed
    }

    /** The entries of a table that purge has kept when it still has to look at the given keys. */
    ghost function Kept<K>(entries: map<K, Transaction>, keys: set<K>, now: real, timeout: real): map<K, Transaction>
      reads entries.Values
    {
      map k | k in entries && (k in keys || !Gone(entries[k], now, timeout)) :: entries[k]
    }

    ghost function Dropped<K>(entries: map<K, Transaction>, keys: set<K>, now: real, timeout: real): set<K>
      reads entries.Values
    {
      set k | k in entries && k !in keys && Gone(entries[k], now, timeout)
    }

    lemma LookAt<K>(entries: map<K, Transaction>, keys: set<K>, k: K, now: real, timeout: real)
      requires k in keys && k in entries
      ensures Kept(entries, keys - {k}, now, timeout)
           == if Gone(entries[k], now, timeout) then Kept(entries, keys, now, timeout) - {k}
               else Kept(entries, keys, now, timeout)
      ensures Dropped(entries, keys - {k}, now, timeout)
           == if Gone(entries[k], now, timeout) then Dropped(entries, keys, now, timeout) + {k}
               else Dropped(entries, keys, now, timeout)
    {
    }

    lemma LookAtNone<K>(entries: map<K, Transaction>, now: real, timeout: real)
      ensures Kept(entries, entries.Keys, now, timeout) == entries
      ensures Dropped(entries, entries.Keys, now, timeout) == {}
    {
    }

    /** Remove the completed and the expired transactions, and the Block2 state of their keys. */
    method Purge(now: real, timeout: real, blockLayer: BlockLayer)
      requires Valid() && blockLayer.Valid()
      modifies this`transactions, this`transactionsToken, blockLayer, blockLayer.tables, blockLayer.items
      ensures Valid() && blockLayer.Valid() && blockLayer.items == old(blockLayer.items)
      ensures transactions == Kept(old(transactions), {}, now, timeout)
      ensures transactionsToken == Kept(old(transactionsToken), {}, now, timeout)
      ensures var before := old(blockLayer.Contents());
              blockLayer.Contents()
                  == before.(received2 := before.received2 - Dropped(old(transactionsToken), {}, now, timeout))
      ensures forall k :: k in transactions <==>
                k in old(transactions)
                && var t := old(transactions)[k]; !t.completed && now <= t.timestamp + timeout
      ensures forall k :: k in transactionsToken <==>
                k in old(transactionsToken)
                && var t := old(transactionsToken)[k]; !t.completed && now <= t.timestamp + timeout
    {
      PurgeMids(now, timeout);
      PurgeTokens(now, timeout, blockLayer);
    }

    /** A transaction that is not completed survives every purge up to the timeout after its stamp, and none later. */
    lemma GoneByAge(t: Transaction, stamp: real, timeout: real, now: real)
      requires t.timestamp == stamp && !t.completed
      ensures Gone(t, now, timeout) <==> now > stamp + timeout
    {
    }

    method Forget(k: Key, blockLayer: BlockLayer)
      requires Valid() && blockLayer.Valid()
      modifies this`transactionsToken, blockLayer, blockLayer.tables, blockLayer.items
      ensures Valid() && blockLayer.Valid() && blockLayer.items == old(blockLayer.items)
      ensures transactionsToken == old(transactionsToken) - {k}
      ensures blockLayer.Contents() == BlockTables.Purge(old(blockLayer.Contents()), k)
    {
      hide BlockLayer.Valid, BlockLayer.Contents;
      transactionsToken := transactionsToken - {k};
      blockLayer.Purge(k);
    }

    lemma PurgedTables(t: Tables, dropped: set<Key>, k: Key)
      ensures BlockTables.Purge(t.(received2 := t.received2 - dropped), k)
              == t.(received2 := t.received2 - dropped - {k})
    {
    }

    lemma DropOne(m: map<Key, Item>, dropped: set<Key>, k: Key)
      ensures m - dropped - {k} == m - (dropped + {k})
    {
    }

    method PurgeTokens(now: real, timeout: real, blockLayer: BlockLayer)
      requires Valid() && blockLayer.Valid()
      modifies this`transactionsToken, blockLayer, blockLayer.tables, blockLayer.items
      ensures Valid() && blockLayer.Valid() && blockLayer.items == old(blockLayer.items)
      ensures transactionsToken == Kept(old(transactionsToken), {}, now, timeout)
      ensures var before := old(blockLayer.Contents());
              blockLayer.Contents()
                  == before.(received2 := before.received2 - Dropped(old(transactionsToken), {}, now, timeout))
    {
      hide Valid, BlockLayer.Valid, BlockLayer.Contents, Kept, Dropped, Gone, BlockTables.Purge;
      var keys := transactionsToken.Keys;
      ghost var before, entries := blockLayer.Contents(), transactionsToken;
      LookAtNone(entries, now, timeout);
      assert before.received2 - {} == before.received2;
      while keys != {}
        invariant Valid() && blockLayer.Valid() && blockLayer.items == old(blockLayer.items)
        invariant keys <= entries.Keys
        invariant keys <= transactionsToken.Keys && forall j :: j in keys ==> transactionsToken[j] == entries[j]
        invariant transactionsToken == Kept(entries, keys, now, timeout)
        invariant blockLayer.Contents() == before.(received2 := before.received2 - Dropped(entries, keys, now, timeout))
      {
        var k :| k in keys;
        LookAt(entries, keys, k, now, timeout);
        ghost var dropped := Dropped(entries, keys, now, timeout);
        if Gone(transactionsToken[k], now, timeout) {
          Forget(k, blockLayer);
          PurgedTables(before, dropped, k);
          DropOne(before.received2, dropped, k);
        }
        keys := keys - {k};
      }
    }

    method ForgetMid(k: MidKey)
      requires Valid()
      modifies this`transactions
      ensures Valid() && transactions == old(transactions) - {k}
    {
      transactions := transactions - {k};
    }

    method PurgeMids(now: real, timeout: real)
      requires Valid()
      modifies this`transactions
      ensures Valid()
      ensures transactions == Kept(old(transactions), {}, now, timeout)
    {
      hide Valid, Kept, Dropped, Gone;
      var keys := transactions.Keys;
      ghost var entries := transactions;
      LookAtNone(entries, now, timeout);
      while keys != {}
        invariant Valid()
        invariant keys <= entries.Keys
        invariant keys <= transactions.Keys && forall j :: j in keys ==> transactions[j] == entries[j]
        invariant transactions == Kept(entries, keys, now, timeout)
      {
        var k :| k in keys;
        LookAt(entries, keys, k, now, timeout);
        if Gone(transactions[k], now, timeout) {
          ForgetMid(k);
        }
        keys := keys - {k};
      }
    }
  }
}
