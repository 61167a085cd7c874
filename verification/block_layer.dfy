/** layers/block_layer.py: the block layer, its four tables and the items that are updated in place. */
module BlockLayer {

  import opened Wrappers
  import opened Bytes
  import opened BlockOption
  import opened Messages
  import opened BlockTables

  /** The names of the layer's four dictionaries. */
  datatype Table = Sent1 | Sent2 | Received1 | Received2

  function In(t: Tables, table: Table): map<Key, Item> {
    match table
    case Sent1 => t.sent1
    case Sent2 => t.sent2
    case Received1 => t.received1
    case Received2 => t.received2
  }

  function With(t: Tables, table: Table, m: map<Key, Item>): Tables {
    match table
    case Sent1 => t.(sent1 := m)
    case Sent2 => t.(sent2 := m)
    case Received1 => t.(received1 := m)
    case Received2 => t.(received2 := m)
  }

  lemma OverwriteTwice(m: map<Key, Item>, key: Key, v: Item, w: Item)
    ensures m[key := v][key := w] == m[key := w]
    ensures m[key := v] - {key} == m - {key}
  {
  }

  class BlockItem {
    var byte: nat
    var num: nat
    var more: bool
    var size: nat
    var payload: Held
    var contentType: Option<nat>

    constructor (v: Item)
      ensures Value() == v
    {
      byte, num, more, size, payload, contentType := v.byte, v.num, v.more, v.size, v.payload, v.contentType;
    }

    function Value(): Item
      reads this
    {
      Item(byte, num, more, size, payload, contentType)
    }

    method Assign(v: Item)
      modifies this
      ensures Value() == v
    {
      byte, num, more, size, payload, contentType := v.byte, v.num, v.more, v.size, v.payload, v.contentType;
    }
  }

  /** One of the layer's dictionaries. */
  class ItemTable {
    var entries: map<Key, BlockItem>
    /** What the entries hold. */
    ghost var contents: map<Key, Item>
    /** The items that are or were entries. */
    ghost var items: set<BlockItem>

    /** Every entry is an object of its own. */
    ghost predicate Valid()
      reads this, items
    {
      && (forall k :: k in entries <==> k in contents)
      && (forall k :: k in entries ==> entries[k] in items && entries[k].Value() == contents[k])
      && (forall j, k :: j in entries && k in entries && entries[j] == entries[k] ==> j == k)
    }

    constructor ()
      ensures Valid() && contents == map[] && items == {}
    {
      entries, contents, items := map[], map[], {};
    }

    function Get(key: Key): (v: Option<Item>)
      requires Valid()
      reads this, items
      ensures v == if key in contents then Some(contents[key]) else None
    {
      if key in entries then Some(entries[key].Value()) else None
    }

    /** Store a new item object under the key. */
    method Put(key: Key, v: Item)
      requires Valid()
      modifies this
      ensures Valid() && fresh(items - old(items)) && contents == old(contents)[key := v]
    {
      var item := new BlockItem(v);
      entries, contents, items := entries[key := item], contents[key := v], items + {item};
    }

    /** Assign the fields of the item stored under the key. */
    method Update(key: Key, v: Item)
      requires Valid() && key in contents
      modifies this`contents, items
      ensures Valid() && contents == old(contents)[key := v]
    {
      entries[key].Assign(v);
      contents := contents[key := v];
    }

    method Remove(key: Key)
      requires Valid()
      modifies this
      ensures Valid() && items == old(items) && contents == old(contents) - {key}
    {
      entries, contents := entries - {key}, contents - {key};
    }
  }

  class BlockLayer {
    const block1Sent: ItemTable
    const block2Sent: ItemTable
    const block1Receive: ItemTable
    const block2Receive: ItemTable

    constructor ()
      ensures Valid() && fresh(this) && fresh(tables) && items == {} && Contents() == EmptyTables
    {
      block1Sent := new ItemTable();
      block2Sent := new ItemTable();
      block1Receive := new ItemTable();
      block2Receive := new ItemTable();
      tables := {block1Sent, block2Sent, block1Receive, block2Receive};
      items := {};
    }

    ghost const tables: set<ItemTable>
    /** The items that are or were in a table. */
    ghost var items: set<BlockItem>

    ghost predicate Distinct() {
      && block1Sent != block2Sent && block1Sent != block1Receive && block1Sent != block2Receive
      && block2Sent != block1Receive && block2Sent != block2Receive && block1Receive != block2Receive
    }

    /** Each table is valid, and no item is in two tables. */
    ghost predicate Valid()
      reads this, tables, items
    {
      && block1Sent in tables && block2Sent in tables && block1Receive in tables && block2Receive in tables
      && block1Sent.items <= items && block2Sent.items <= items
      && block1Receive.items <= items && block2Receive.items <= items
      && Distinct()
      && block1Sent.items !! block2Sent.items !! block1Receive.items !! block2Receive.items
      && block1Sent.Valid() && block2Sent.Valid() && block1Receive.Valid() && block2Receive.Valid()
    }

    ghost function Contents(): Tables
      requires Valid()
      reads this, tables, items
    {
      Tables(block1Sent.contents, block2Sent.contents, block1Receive.contents, block2Receive.contents)
    }

    function TableOf(table: Table): ItemTable {
      match table
      case Sent1 => block1Sent
      case Sent2 => block2Sent
      case Received1 => block1Receive
      case Received2 => block2Receive
    }

    function Get(table: Table, key: Key): (v: Option<Item>)
      requires Valid()
      reads this, tables, items
      ensures v == if key in In(Contents(), table) then Some(In(Contents(), table)[key]) else None
    {
      TableOf(table).Get(key)
    }

    method Put(table: Table, key: Key, v: Item)
      requires Valid()
      modifies this, tables, items
      ensures Valid() && fresh(items - old(items))
      ensures Contents() == With(old(Contents()), table, In(old(Contents()), table)[key := v])
    {
      hide ItemTable.Valid;
      TableOf(table).Put(key, v);
      items := items + TableOf(table).items;
    }

    method Update(table: Table, key: Key, v: Item)
      requires Valid() && key in In(Contents(), table)
      modifies this, tables, items
      ensures Valid() && items == old(items)
      ensures Contents() == With(old(Contents()), table, In(old(Contents()), table)[key := v])
    {
      hide ItemTable.Valid;
      TableOf(table).Update(key, v);
    }

    method Remove(table: Table, key: Key)
      requires Valid()
      modifies this, tables, items
      ensures Valid() && items == old(items)
      ensures Contents() == With(old(Contents()), table, In(old(Contents()), table) - {key})
    {
      hide ItemTable.Valid;
      TableOf(table).Remove(key);
    }

    method ReceiveRequest(transaction: Transaction) returns (exit: Exit)
      requires Valid()
      modifies this, tables, items, transaction, transaction.request
      ensures Valid() && fresh(items - old(items))
      ensures (Contents(), transaction.View(), exit)
              == BlockTables.ReceiveRequest(old(Contents()), old(transaction.View()))
      ensures transaction.request == old(transaction.request)
      ensures transaction.response == old(transaction.response) || fresh(transaction.response)
      ensures unchanged(transaction`resource) && unchanged(transaction`timestamp)
    {
      hide Valid, Contents, ReceiveBlock1Request, ReceiveBlock2Request;
      var request := transaction.request;
      var keyToken := KeyOf(request.source, request.token);
      exit := Returned;
      if request.block2.Some? {
        ReceiveBlock2(transaction, keyToken, request.block2.value);
      } else if request.block1.Some? {
        exit := ReceiveBlock1(transaction, keyToken, request.block1.value);
      }
    }

    /** The Block2 branch of receive_request. */
    method ReceiveBlock2(transaction: Transaction, keyToken: Key, b: Block)
      requires Valid()
      modifies this, tables, items, transaction, transaction.request
      ensures Valid() && fresh(items - old(items))
      ensures (Contents(), transaction.View())
              == ReceiveBlock2Request(old(Contents()), keyToken, b, old(transaction.View()))
      ensures transaction.request == old(transaction.request) && transaction.response == old(transaction.response)
      ensures unchanged(transaction`resource) && unchanged(transaction`timestamp)
    {
      hide Valid, Contents;
      var held := NoteBlock2(keyToken, b);
      if held {
        transaction.completed := true;
      }
      var request := transaction.request;
      request.Assign(request.Contents().(block2 := None));
    }

    /** Note which block is asked for; held tells that the body to cut it from is stored. */
    method NoteBlock2(keyToken: Key, b: Block) returns (held: bool)
      requires Valid()
      modifies this, tables, items
      ensures Valid() && fresh(items - old(items))
      ensures var t := old(Contents());
              && held == (keyToken in t.received2 && OctetsOf(t.received2[keyToken].payload) != [])
              && Contents() == t.(received2 := t.received2[keyToken :=
                   if keyToken in t.received2 then t.received2[keyToken].(num := b.num, size := b.size, more := b.more)
                   else Item(b.num * b.size, b.num, b.more, b.size, Nothing, None)])
    {
      hide Valid, Contents;
      var item := Get(Received2, keyToken);
      if item.Some? {
        Update(Received2, keyToken, item.value.(num := b.num, size := b.size, more := b.more));
        held := OctetsOf(item.value.payload) != [];
      } else {
        // early negotiation
        var byte := b.num * b.size;
        Put(Received2, keyToken, Item(byte, b.num, b.more, b.size, Nothing, None));
        held := false;
      }
    }

    /** The Block1 branch of receive_request (POST or PUT). */
    method ReceiveBlock1(transaction: Transaction, keyToken: Key, b: Block) returns (exit: Exit)
      requires Valid()
      modifies this, tables, items, transaction, transaction.request
      ensures Valid() && fresh(items - old(items))
      ensures (Contents(), transaction.View(), exit)
           == ReceiveBlock1Request(old(Contents()), keyToken, b, old(transaction.View()))
      ensures transaction.request == old(transaction.request)
      ensures transaction.response == old(transaction.response) || fresh(transaction.response)
      ensures unchanged(transaction`resource) && unchanged(transaction`timestamp)
    {
      hide Valid, Contents, Gathered, Incomplete;
      var request := transaction.request;
      var item := Get(Received1, keyToken);
      if (item.Some? && (b.num != item.value.num || Some(request.contentType) != item.value.contentType))
         || (item.None? && b.num != 0)
      {
        NotifyIncomplete(transaction);
        return Returned;
      }
      exit := Gather(keyToken, b, request.payload, request.contentType);
      if exit == Returned {
        ghost var stored := Contents().received1[keyToken];
        FinishBlock1(transaction, keyToken, b);
        OverwriteTwice(old(Contents()).received1, keyToken, stored,
          stored.(byte := b.size, num := b.num + 1, size := b.size, more := b.more));
      }
    }

    /** Join an n-th block with what is stored, or store a first one. */
    method Gather(keyToken: Key, b: Block, payload: Option<bytes>, contentType: nat) returns (exit: Exit)
      requires Valid()
      modifies this, tables, items
      ensures Valid() && fresh(items - old(items))
      ensures var t := old(Contents());
              var known, gathered := keyToken in t.received1, Gathered(t, keyToken, payload);
              if known && gathered.None? then exit == Thrown && Contents() == t
              else
                && exit == Returned
                && Contents() == t.(received1 := t.received1[keyToken :=
                     if known then t.received1[keyToken].(payload := Hold(gathered))
                     else Item(b.size, b.num, b.more, b.size, Hold(gathered), Some(contentType))])
    {
      hide Valid, Contents;
      var item := Get(Received1, keyToken);
      if item.Some? {
        // n-th block
        var joined := Join(item.value.payload, payload);
        if joined.None? {
          return Thrown;
        }
        Update(Received1, keyToken, item.value.(payload := Octets(joined.value)));
      } else {
        // first block
        Put(Received1, keyToken, Item(b.size, b.num, b.more, b.size, Hold(payload), Some(contentType)));
      }
      exit := Returned;
    }

    /** The end of the Block1 branch: deliver the payload, or answer Continue. */
    method FinishBlock1(transaction: Transaction, keyToken: Key, b: Block)
      requires Valid() && keyToken in Contents().received1
      modifies this, tables, items, transaction, transaction.request
      ensures Valid() && items == old(items)
      ensures var t, item, x := old(Contents()), old(Contents().received1[keyToken]), old(transaction.View());
              (Contents(), transaction.View()) ==
                if !b.more then
                  (t.(received1 := t.received1 - {keyToken}),
                   x.(request := x.request.(payload := Release(item.payload), block1 := None), blockTransfer := false))
                else
                  (t.(received1 := t.received1[keyToken :=
                        item.(byte := b.size, num := b.num + 1, size := b.size, more := b.more)]),
                   x.(blockTransfer := true,
                      response := Some(Reply(x.request).(code := Some(CONTINUE), block1 := Some(b)))))
      ensures transaction.request == old(transaction.request)
      ensures transaction.response == old(transaction.response) || fresh(transaction.response)
      ensures unchanged(transaction`resource) && unchanged(transaction`timestamp)
    {
      hide Valid, Contents;
      var request := transaction.request;
      var item := Get(Received1, keyToken).value;
      if !b.more {
        // end of blockwise
        Remove(Received1, keyToken);
        request.Assign(request.Contents().(payload := Release(item.payload), block1 := None));
        transaction.blockTransfer := false;
      } else {
        // Continue
        Update(Received1, keyToken, item.(byte := b.size, num := b.num + 1, size := b.size, more := b.more));
        var response := new Response(Reply(request.Contents()).(code := Some(CONTINUE), block1 := Some(b)));
        transaction.blockTransfer := true;
        transaction.response := response;
      }
    }

    method NotifyIncomplete(transaction: Transaction)
      modifies transaction
      ensures transaction.View() == Incomplete(old(transaction.View()))
      ensures transaction.request == old(transaction.request) && fresh(transaction.response)
      ensures unchanged(transaction`resource) && unchanged(transaction`timestamp)
    {
      transaction.blockTransfer := true;
      var response := new Response(
        Reply(transaction.request.Contents()).(code := Some(REQUEST_ENTITY_INCOMPLETE)));
      transaction.response := response;
    }

    method NotifyError(transaction: Transaction, code: nat)
      modifies transaction
      ensures transaction.View() == Error(old(transaction.View()), code)
      ensures transaction.request == old(transaction.request) && fresh(transaction.response)
      ensures unchanged(transaction`resource) && unchanged(transaction`timestamp)
    {
      transaction.blockTransfer := true;
      var response := new Response(Reply(transaction.request.Contents()).(typ := Some(RST), code := Some(code)));
      transaction.response := response;
    }

    method ReceiveResponse(transaction: Transaction) returns (exit: Exit)
      requires Valid() && transaction.response != null
      modifies this, tables, items, transaction, transaction.request, transaction.response
      ensures Valid() && fresh(items - old(items))
      ensures (Contents(), transaction.View(), exit)
           == BlockTables.ReceiveResponse(old(Contents()), old(transaction.View()))
      ensures transaction.request == old(transaction.request)
      ensures transaction.response == old(transaction.response) || fresh(transaction.response)
      ensures unchanged(transaction`resource) && unchanged(transaction`timestamp)
    {
      hide Valid, Contents, ReceiveBlock1Response, ReceiveBlock, ReceiveLastBlock;
      var response := transaction.response;
      var keyToken := KeyOf(response.source, response.token);
      exit := Returned;
      if Get(Sent1, keyToken).Some? && response.block1.Some? {
        exit := ContinueUpload(transaction, keyToken, response.block1.value);
      } else if response.block2.Some? {
        if response.block2.value.more {
          exit := ContinueDownload(transaction, keyToken, response.block2.value);
        } else {
          exit := FinishDownload(transaction, keyToken);
        }
      } else {
        transaction.blockTransfer := false;
      }
    }

    /** The Block1 branch of receive_response. */
    method ContinueUpload(transaction: Transaction, keyToken: Key, b: Block) returns (exit: Exit)
      requires Valid() && keyToken in Contents().sent1
      modifies this, tables, items, transaction, transaction.request
      ensures Valid() && fresh(items - old(items))
      ensures (Contents(), transaction.View(), exit)
           == ReceiveBlock1Response(old(Contents()), keyToken, b, old(transaction.View()))
      ensures transaction.request == old(transaction.request) && transaction.response == old(transaction.response)
      ensures unchanged(transaction`resource) && unchanged(transaction`timestamp)
    {
      hide Valid, Contents, CutUpload;
      var request := transaction.request;
      var item := Get(Sent1, keyToken).value;
      transaction.blockTransfer := true;
      if !item.more {
        transaction.blockTransfer := false;
        request.Assign(request.Contents().(block1 := None));
        return Returned;
      }
      if b.num != item.num {
        return ReturnedNone;
      }
      var size := if b.size < item.size then b.size else item.size;
      exit := CutNext(request, keyToken, item.(size := size));
    }

    /** Cut the next block of the item's payload into the request. */
    method CutNext(request: Request, keyToken: Key, scaled: Item) returns (exit: Exit)
      requires Valid() && keyToken in Contents().sent1
      modifies this, tables, items, request
      ensures Valid() && items == old(items)
      ensures var (next, m, e) := CutUpload(scaled, old(request.Contents()));
              && exit == e && request.Contents() == m
              && Contents() == old(Contents()).(sent1 := old(Contents()).sent1[keyToken := next])
    {
      hide Valid, Contents, Slice;
      if !scaled.payload.Octets? {
        Update(Sent1, keyToken, scaled);
        request.Assign(request.Contents().(mid := None, block1 := None));
        return Thrown;
      }
      var payload := scaled.payload.octets;
      var byte := scaled.byte + scaled.size;
      var item := scaled.(num := scaled.num + 1, byte := byte, more := !(|payload| <= byte));
      Update(Sent1, keyToken, item);
      request.Assign(request.Contents().(mid := None, payload := Some(Slice(payload, scaled.byte, byte)),
                                         block1 := Some(Block(item.num, item.more, item.size))));
      exit := Returned;
    }

    /** The Block2 branch of receive_response while more blocks follow. */
    method ContinueDownload(transaction: Transaction, keyToken: Key, b: Block) returns (exit: Exit)
      requires Valid() && transaction.response != null && b.more
      modifies this, tables, items, transaction, transaction.request, transaction.response
      ensures Valid() && fresh(items - old(items))
      ensures (Contents(), transaction.View(), exit)
           == ReceiveBlock(old(Contents()), keyToken, b, old(transaction.View()), old(transaction.response.Contents()))
      ensures transaction.request == old(transaction.request)
      ensures transaction.response == old(transaction.response) || fresh(transaction.response)
      ensures unchanged(transaction`resource) && unchanged(transaction`timestamp)
    {
      hide Valid, Contents, StoreBlock, Error;
      var request := transaction.request;
      var refusal;
      refusal, exit := Store(keyToken, b, transaction.response);
      if refusal.Some? {
        NotifyError(transaction, refusal.value);
      } else {
        transaction.blockTransfer := true;
        if exit != Thrown {
          AskNext(request, b);
        }
      }
    }

    method Store(keyToken: Key, b: Block, response: Response) returns (refusal: Option<nat>, exit: Exit)
      requires Valid()
      modifies this, tables, items
      ensures Valid() && fresh(items - old(items))
      ensures (Contents(), refusal, exit) == StoreBlock(old(Contents()), keyToken, b, old(response.Contents()))
    {
      hide Valid, Contents, Join, Hold;
      var item := Get(Sent2, keyToken);
      refusal, exit := None, Returned;
      if item.Some? {
        refusal := Refusal(item.value, b, response.contentType);
        if refusal.None? {
          exit := AppendBlock(keyToken, b, item.value, response.payload, response.contentType);
        }
      } else {
        Put(Sent2, keyToken,
          Item(b.size, b.num + 1, b.more, b.size, Hold(response.payload), Some(response.contentType)));
      }
    }

    method AskNext(request: Request, b: Block)
      modifies request`mid, request`block2
      ensures request.Contents()
              == old(request.Contents()).(mid := None, block2 := Some(Block(b.num + 1, false, b.size)))
    {
      request.mid := None;
      request.block2 := Some(Block(b.num + 1, false, b.size));
    }

    /** Update the item of a download and join its payload with the block's. */
    method AppendBlock(keyToken: Key, b: Block, item: Item, payload: Option<bytes>, contentType: nat)
      returns (exit: Exit)
      requires Valid() && keyToken in Contents().sent2
      modifies this, tables, items
      ensures Valid() && items == old(items)
      ensures var joined := Join(item.payload, payload);
              var held := if joined.None? then item.payload else Octets(joined.value);
              && exit == (if joined.None? then Thrown else Returned)
              && Contents() == old(Contents()).(sent2 := old(Contents()).sent2[keyToken :=
                   Item(item.byte + b.size, b.num + 1, b.more, b.size, held, Some(contentType))])
    {
      hide Valid, Contents;
      var joined := Join(item.payload, payload);
      var held := if joined.None? then item.payload else Octets(joined.value);
      Update(Sent2, keyToken, Item(item.byte + b.size, b.num + 1, b.more, b.size, held, Some(contentType)));
      exit := if joined.None? then Thrown else Returned;
    }

    /** The Block2 branch of receive_response at the last block. */
    method FinishDownload(transaction: Transaction, keyToken: Key) returns (exit: Exit)
      requires Valid() && transaction.response != null
      modifies this, tables, items, transaction, transaction.request, transaction.response
      ensures Valid() && fresh(items - old(items))
      ensures (Contents(), transaction.View(), exit)
           == ReceiveLastBlock(old(Contents()), keyToken, old(transaction.View()), old(transaction.response.Contents()))
      ensures transaction.request == old(transaction.request)
      ensures transaction.response == old(transaction.response) || fresh(transaction.response)
      ensures unchanged(transaction`resource) && unchanged(transaction`timestamp)
    {
      hide Valid, Contents, CloseDownload;
      var response := transaction.response;
      var closing := Close(keyToken, response);
      transaction.blockTransfer := false;
      match closing {
        case Whole =>
          exit := Returned;
        case Mismatched =>
          NotifyError(transaction, UNSUPPORTED_CONTENT_FORMAT);
          exit := Returned;
        case NotJoined =>
          exit := Thrown;
        case Joined(payload) =>
          response.Assign(response.Contents().(payload := Some(payload)));
          exit := Returned;
      }
    }

    method Close(keyToken: Key, response: Response) returns (closing: Closing)
      requires Valid()
      modifies this, tables, items
      ensures Valid() && items == old(items)
      ensures (Contents(), closing) == CloseDownload(old(Contents()), keyToken, old(response.Contents()))
    {
      hide Valid, Contents, Join;
      var item := Get(Sent2, keyToken);
      if item.None? {
        return Whole;
      }
      if item.value.contentType != Some(response.contentType) {
        return Mismatched;
      }
      var payload := Join(item.value.payload, response.payload);
      if payload.None? {
        return NotJoined;
      }
      Remove(Sent2, keyToken);
      closing := Joined(payload.value);
    }

    method SendResponse(transaction: Transaction) returns (exit: Exit)
      requires Valid()
      modifies this, tables, items, transaction.response
      ensures Valid() && fresh(items - old(items))
      ensures (Contents(), transaction.View(), exit)
              == BlockTables.SendResponse(old(Contents()), old(transaction.View()))
      ensures transaction.response != null ==>
              transaction.response.acknowledged == old(transaction.response.acknowledged)
    {
      hide Valid, Contents, Serving, Slice, MoreAfter, Cut;
      var response := transaction.response;
      var keyToken := KeyOf(transaction.request.source, transaction.request.token);
      var item := Get(Received2, keyToken);
      if response == null {
        return if item.Some? && item.value.payload != Nothing then Thrown else Returned;
      }
      if (item.Some? && item.value.payload != Nothing)
         || (response.payload.Some? && (item.Some? || |response.payload.value| > MAX_PAYLOAD))
      {
        SendBlock(transaction.request, response, keyToken);
      }
      exit := Returned;
    }

    /** Cut the next block of the served payload into the response. */
    method SendBlock(request: Request, response: Response, keyToken: Key)
      requires Valid()
      modifies this, tables, items, response
      ensures Valid() && fresh(items - old(items)) && response.acknowledged == old(response.acknowledged)
      ensures var t, m := old(Contents()), old(response.Contents());
              var item := Serving(t, keyToken, m);
              && Contents() == t.(received2 :=
                   t.received2[keyToken := item.(byte := item.byte + item.size, num := item.num + 1)])
              && response.Contents() == Cut(request.Contents(), m, item)
    {
      hide Valid, Contents, Serving, Slice, MoreAfter;
      var serving := ServeFrom(keyToken, response);
      var payload := OctetsOf(serving.payload);
      // correct m
      var more := MoreAfter(serving.num, serving.size, |payload|);
      var size2 := None;
      if request.size2 == Some(0) || |payload| > MAX_PAYLOAD {
        size2 := Some(|payload|);
      }
      var piece := Some(Slice(payload, serving.byte, serving.byte + serving.size));
      ghost var next := serving.(byte := serving.byte + serving.size, num := serving.num + 1);
      Update(Received2, keyToken, serving.(byte := serving.byte + serving.size, num := serving.num + 1));
      OverwriteTwice(old(Contents()).received2, keyToken, serving, next);
      response.Assign(response.Contents().(
        size2 := size2, payload := piece, block2 := Some(Block(serving.num, more, serving.size))));
    }

    /** The item that a response is cut from: the running one, or a new one over the response's payload. */
    method ServeFrom(keyToken: Key, response: Response) returns (item: Item)
      requires Valid()
      modifies this, tables, items
      ensures Valid() && fresh(items - old(items))
      ensures item == Serving(old(Contents()), keyToken, response.Contents())
      ensures Contents() == old(Contents()).(received2 := old(Contents()).received2[keyToken := item])
    {
      hide Valid, Contents;
      var known := Get(Received2, keyToken);
      if known.Some? {
        item := known.value;
        if item.payload.Nothing? && response.payload.Some? {
          item := item.(payload := Hold(response.payload), contentType := Some(response.contentType));
        }
        Update(Received2, keyToken, item);
      } else {
        item := Item(0, 0, true, MAX_PAYLOAD, Hold(response.payload), Some(response.contentType));
        Put(Received2, keyToken, item);
      }
    }

    method Purge(keyToken: Key)
      requires Valid()
      modifies this, tables, items
      ensures Valid() && items == old(items)
      ensures Contents() == BlockTables.Purge(old(Contents()), keyToken)
    {
      Remove(Received2, keyToken);
    }

    method SendRequest(request: Request) returns (exit: Exit)
      requires Valid()
      modifies this, tables, items, request
      ensures Valid() && fresh(items - old(items))
      ensures (Contents(), request.Contents(), exit)
              == BlockTables.SendRequest(old(Contents()), old(request.Contents()))
      ensures request.acknowledged == old(request.acknowledged)
    {
      hide Valid, Contents;
      var keyToken := KeyOf(request.destination, request.token);
      if request.block1.Some? || LargePayload(request.Contents()) {
        if request.payload.None? {
          return Thrown;
        }
        var payload := request.payload.value;
        var num, size: nat := 0, MAX_PAYLOAD;
        if request.block1.Some? {
          num, size := request.block1.value.num, request.block1.value.size;
        }
        // correct m
        var more := MoreAfter(num, size, |payload|);
        Put(Sent1, keyToken, Item(size, num, more, size, Octets(payload), Some(request.contentType)));
        request.Assign(request.Contents().(
          size1 := Some(|payload|), payload := Some(Slice(payload, 0, size)), block1 := Some(Block(num, more, size))));
      } else if request.block2.Some? {
        var Block(num, more, size) := request.block2.value;
        Put(Sent2, keyToken, Item(size, num, more, size, EmptyText, None));
      }
      exit := Returned;
    }
  }
}
