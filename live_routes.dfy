/** The form-based site of auction_site/routes.py: register, log in and out,
    bid, add and edit items, edit or delete one's own account. */
module LiveRoutes {
  import opened Options
  import opened Auction

  /** The bid rule of `ItemOne.post`: a bid is accepted exactly when it is
      strictly higher than the current price, and then both the price and the
      winner are recorded. Dates and ownership play no part. */
  function PlaceBid(item: Item, bidder: UserId, price: Price): (r: Item)
    ensures (r != item) <==> item.currentPrice < price
    ensures item.currentPrice < price ==> r.currentPrice == price && r.winner == Some(bidder)
    ensures item.currentPrice <= r.currentPrice && price <= r.currentPrice
    ensures r.(currentPrice := item.currentPrice, winner := item.winner) == item
  {
    if item.currentPrice < price then item.(currentPrice := price, winner := Some(bidder)) else item
  }

  /** One offer of a sequence of bids on the same item. */
  datatype Offer = Offer(bidder: UserId, price: Price)

  /** The item after the offers have been made one after another. */
  function ApplyBids(item: Item, offers: seq<Offer>): Item
    decreases |offers|
  {
    if offers == [] then item
    else ApplyBids(PlaceBid(item, offers[0].bidder, offers[0].price), offers[1..])
  }

  /** Whatever the order of the offers, the final price is at least every
      offer and the starting price, only the price and the winner change, and
      either no offer was accepted or the winner is the first bidder who
      offered the final price. */
  lemma {:induction false} BidsKeepHighest(item: Item, offers: seq<Offer>)
    ensures var f := ApplyBids(item, offers);
      && item.currentPrice <= f.currentPrice
      && (forall k :: 0 <= k < |offers| ==> offers[k].price <= f.currentPrice)
      && f.(currentPrice := item.currentPrice, winner := item.winner) == item
      && (f.currentPrice == item.currentPrice ==> f == item)
      && (f.currentPrice != item.currentPrice ==>
            exists k :: 0 <= k < |offers| && offers[k].price == f.currentPrice
                     && f.winner == Some(offers[k].bidder)
                     && forall j :: 0 <= j < k ==> offers[j].price < f.currentPrice)
    decreases |offers|
  {
    if offers != [] {
      var o, rest := offers[0], offers[1..];
      var first := PlaceBid(item, o.bidder, o.price);
      var f := ApplyBids(first, rest);
      assert f == ApplyBids(item, offers);
      BidsKeepHighest(first, rest);
      forall k | 0 <= k < |offers|
        ensures offers[k].price <= f.currentPrice
      {
        if k > 0 { assert offers[k] == rest[k - 1]; }
      }
      if f.currentPrice != item.currentPrice {
        if f.currentPrice == first.currentPrice {
          assert offers[0].price == f.currentPrice && f.winner == Some(offers[0].bidder);
        } else {
          var k' :| 0 <= k' < |rest| && rest[k'].price == f.currentPrice
                  && f.winner == Some(rest[k'].bidder)
                  && forall j :: 0 <= j < k' ==> rest[j].price < f.currentPrice;
          assert offers[k' + 1] == rest[k'];
          forall j | 0 <= j < k' + 1
            ensures offers[j].price < f.currentPrice
          {
            if j > 0 { assert offers[j] == rest[j - 1]; }
          }
        }
      }
    }
  }

  /** A rejected offer leaves the item as it was, so an equal or lower bid
      after an accepted one changes nothing (scenario: asking price 10, bids of
      10, 15 and then 12). */
  lemma OfferSequenceExample(owner: UserId, second: UserId, third: UserId, today: Day)
    ensures var item := Item("lot", "", today, today + 3, 10, 10, Some(owner), None);
      var afterTen := PlaceBid(item, second, 10);
      var afterFifteen := PlaceBid(afterTen, second, 15);
      var afterTwelve := PlaceBid(afterFifteen, third, 12);
      && afterTen == item
      && afterFifteen.currentPrice == 15 && afterFifteen.winner == Some(second)
      && afterTwelve == afterFifteen
  {
  }

  /** The edit rule of `ItemEdit.post`: every editable field is overwritten and
      the current price is reset to the new asking price; owner and winner
      stay. */
  function Overwrite(item: Item, name: string, description: string, askingPrice: Price,
                     startDate: Day, endDate: Day): (r: Item)
    ensures r.name == name && r.description == description
    ensures r.startDate == startDate && r.endDate == endDate
    ensures r.askingPrice == askingPrice && r.currentPrice == askingPrice
    ensures r.owner == item.owner && r.winner == item.winner
  {
    item.(name := name, description := description, askingPrice := askingPrice,
          currentPrice := askingPrice, startDate := startDate, endDate := endDate)
  }

  /** An edit can lower the current price below the highest accepted bid. */
  lemma EditCanLowerPrice(owner: UserId, bidder: UserId, today: Day)
    ensures var item := Item("lot", "", today, today, 10, 50, Some(owner), Some(bidder));
      Overwrite(item, "lot", "", 5, today, today).currentPrice < item.currentPrice
  {
  }

  /** What Python's `for item in user.user_items: ... user.user_items.remove(item)`
      does to the list, scanning from index `i`: after a removal the next
      element slides into the freed slot and the iterator moves past it. */
  function SkipScan(owned: seq<ItemId>, i: nat, marked: set<ItemId>): (r: seq<ItemId>)
    ensures |r| <= |owned|
    ensures forall x :: x in r ==> x in owned
    ensures forall x :: x in owned && x !in marked ==> x in r
    decreases |owned| - i
  {
    if i >= |owned| then owned
    else if owned[i] in marked then
      var next := owned[..i] + owned[i + 1..];
      SkipScan(next, i + 1, marked)
    else SkipScan(owned, i + 1, marked)
  }

  /** The scan never touches what lies before its index. */
  lemma {:induction false} SkipScanKeepsPrefix(owned: seq<ItemId>, i: nat, marked: set<ItemId>)
    requires i <= |owned|
    ensures i <= |SkipScan(owned, i, marked)|
    ensures SkipScan(owned, i, marked)[..i] == owned[..i]
    decreases |owned| - i
  {
    if i < |owned| {
      if owned[i] in marked {
        var next := owned[..i] + owned[i + 1..];
        if i + 1 <= |next| {
          SkipScanKeepsPrefix(next, i + 1, marked);
          assert SkipScan(next, i + 1, marked)[..i] == SkipScan(next, i + 1, marked)[..i + 1][..i];
          assert next[..i] == owned[..i];
        } else {
          assert SkipScan(next, i + 1, marked) == next;
          assert next[..i] == owned[..i];
        }
      } else {
        SkipScanKeepsPrefix(owned, i + 1, marked);
        assert SkipScan(owned, i + 1, marked)[..i] == SkipScan(owned, i + 1, marked)[..i + 1][..i];
      }
    }
  }

  /** When the scan reaches a marked item whose next neighbour is also marked,
      that neighbour is left in the list. */
  lemma SkipScanMissesNeighbour(owned: seq<ItemId>, i: nat, marked: set<ItemId>)
    requires i + 1 < |owned|
    requires owned[i] in marked && owned[i + 1] in marked
    ensures owned[i + 1] in SkipScan(owned, i, marked)
  {
    var next := owned[..i] + owned[i + 1..];
    assert next[i] == owned[i + 1];
    SkipScanKeepsPrefix(next, i + 1, marked);
    assert SkipScan(next, i + 1, marked)[..i + 1][i] == next[i];
  }

  /** The `delitem` loop of `UserOne.post` as written: the items still listed
      afterwards. */
  method DelItemsAsWritten(owned: seq<ItemId>, marked: set<ItemId>) returns (kept: seq<ItemId>)
    ensures kept == SkipScan(owned, 0, marked)
  {
    kept := owned;
    var i := 0;
    while i < |kept|
      invariant SkipScan(kept, i, marked) == SkipScan(owned, 0, marked)
      decreases |kept| - i
    {
      if kept[i] in marked {
        kept := kept[..i] + kept[i + 1..];
      }
      i := i + 1;
    }
  }

  /** Marking both of a user's two items deletes only the first. */
  lemma DelItemsSkipWitness()
    ensures SkipScan([1, 2], 0, {1, 2}) == [2]
  {
  }

  /** The unmarked items of a list, in their order. */
  function Unmarked(owned: seq<ItemId>, marked: set<ItemId>): (r: seq<ItemId>)
    ensures forall x :: x in r <==> x in owned && x !in marked
    ensures |r| <= |owned|
    ensures (forall k :: 0 <= k < |owned| ==> owned[k] !in marked) ==> r == owned
  {
    if owned == [] then []
    else Unmarked(owned[..|owned| - 1], marked)
         + (if owned[|owned| - 1] in marked then [] else [owned[|owned| - 1]])
  }

  /** The evidently intended `delitem` loop: exactly the unmarked items stay,
      in their order. */
  method DelItems(owned: seq<ItemId>, marked: set<ItemId>) returns (kept: seq<ItemId>)
    ensures kept == Unmarked(owned, marked)
    ensures forall x :: x in kept <==> x in owned && x !in marked
    ensures |kept| <= |owned|
  {
    kept := [];
    for n := 0 to |owned|
      invariant kept == Unmarked(owned[..n], marked)
      invariant forall x :: x in kept <==> x in owned[..n] && x !in marked
      invariant |kept| <= n
    {
      assert owned[..n + 1] == owned[..n] + [owned[n]];
      assert owned[..n + 1][..n] == owned[..n];
      if owned[n] !in marked {
        kept := kept + [owned[n]];
      }
    }
    assert owned[..|owned|] == owned;
  }

  /** The store behind routes.py: the `user` and `item` tables as maps, and
      the next ids the database will hand out. */
  class LiveSite {
    var users: map<UserId, User>
    var items: map<ItemId, Item>
    var nextUser: nat
    var nextItem: nat

    /** What every handler keeps: ids are below the counters, every item has
        an ordered window, a current price at least its asking price, and an
        owner that exists. */
    ghost predicate Valid()
      reads this
    {
      StoreOk(users, items, nextUser, nextItem)
    }

    ghost static predicate StoreOk(users: map<UserId, User>, items: map<ItemId, Item>, nextUser: nat, nextItem: nat)
    {
      && (forall u :: u in users ==> u < nextUser)
      && (forall i :: i in items ==> i < nextItem)
      && (forall i :: i in items ==> items[i].startDate <= items[i].endDate)
      && (forall i :: i in items ==> items[i].askingPrice <= items[i].currentPrice)
      && (forall i :: i in items ==> items[i].owner.Some? && items[i].owner.value in users)
    }

    /** The database as found. */
    constructor (users0: map<UserId, User>, items0: map<ItemId, Item>, nextUser0: nat, nextItem0: nat)
      requires StoreOk(users0, items0, nextUser0, nextItem0)
      ensures Valid()
      ensures users == users0 && items == items0 && nextUser == nextUser0 && nextItem == nextItem0
    {
      users, items, nextUser, nextItem := users0, items0, nextUser0, nextItem0;
    }

    /** `Home.post` (logout): the actor is marked inactive. With nobody logged
        in the handler raises. */
    method Logout(actor: UserId) returns (r: Outcome)
      requires Valid()
      modifies this
      ensures Valid()
      ensures r == (if actor in old(users) then Ok else ServerError)
      ensures r == Ok ==> users == old(users)[actor := old(users)[actor].(active := false)]
      ensures r != Ok ==> users == old(users)
      ensures items == old(items) && nextUser == old(nextUser) && nextItem == old(nextItem)
    {
      if actor !in users {
        return ServerError;
      }
      users := users[actor := users[actor].(active := false)];
      r := Ok;
    }

    /** `Login.post`: the user found by nick is marked active when the
        password matches (`passwordOk` stands for the hash check). */
    method Login(nick: string, passwordOk: bool) returns (r: Outcome, who: Option<UserId>)
      requires Valid()
      modifies this
      ensures Valid()
      ensures who.Some? ==> who.value in old(users) && old(users)[who.value].nick == nick
      ensures who.None? <==> nick !in Nicks(old(users))
      ensures r == (if who.Some? && passwordOk then Ok else Rejected)
      ensures r == Ok ==> users == old(users)[who.value := old(users)[who.value].(active := true)]
      ensures r != Ok ==> users == old(users)
      ensures items == old(items) && nextUser == old(nextUser) && nextItem == old(nextItem)
    {
      who := FindByNick(users, nick);
      if who.Some? && passwordOk {
        users := users[who.value := users[who.value].(active := true)];
        r := Ok;
      } else {
        r := Rejected;
      }
    }

    /** `Register.post`: a nick already in use is rejected; otherwise a new,
        active, non-admin user is stored. */
    method Register(nick: string, firstName: string, lastName: string, today: Day) returns (r: Outcome, id: UserId)
      requires Valid()
      modifies this
      ensures Valid()
      ensures r == (if nick in Nicks(old(users)) then Rejected else Ok)
      ensures r == Ok ==> id == old(nextUser) && id !in old(users) && nextUser == old(nextUser) + 1
      ensures r == Ok ==> users == old(users)[id := User(nick, firstName, lastName, today, true, false)]
      ensures r == Ok ==> Owned(items, id) == {}
      ensures r != Ok ==> users == old(users) && nextUser == old(nextUser)
      ensures items == old(items) && nextItem == old(nextItem)
    {
      var taken := FindByNick(users, nick);
      if taken.Some? {
        return Rejected, 0;
      }
      id := nextUser;
      users := users[id := User(nick, firstName, lastName, today, true, false)];
      nextUser := nextUser + 1;
      r := Ok;
    }

    /** `ItemOne.post`: the bid rule applied to the stored item. A missing
        item makes the handler raise. */
    method Bid(actor: UserId, id: ItemId, price: Price) returns (r: Outcome)
      requires Valid()
      modifies this
      ensures Valid()
      ensures actor !in old(users) ==> r == Forbidden
      ensures actor in old(users) && id !in old(items) ==> r == ServerError
      ensures actor in old(users) && id in old(items) ==>
                r == (if old(items)[id].currentPrice < price then Ok else Rejected)
      ensures r == Ok ==> id in old(items) && items == old(items)[id := PlaceBid(old(items)[id], actor, price)]
      ensures r != Ok ==> items == old(items)
      ensures users == old(users) && nextUser == old(nextUser) && nextItem == old(nextItem)
    {
      if actor !in users {
        return Forbidden;
      }
      if id !in items {
        return ServerError;
      }
      var item := items[id];
      if item.currentPrice < price {
        items := items[id := PlaceBid(item, actor, price)];
        r := Ok;
      } else {
        r := Rejected;
      }
    }

    /** `ItemAdd.post`: a reversed window or a start in the past is rejected;
        otherwise the item is stored with the actor as owner, the asking price
        as current price and no winner. */
    method CreateItem(actor: UserId, name: string, description: string, askingPrice: Price,
                      startDate: Day, endDate: Day, today: Day) returns (r: Outcome, id: ItemId)
      requires Valid()
      modifies this
      ensures Valid()
      ensures actor !in old(users) ==> r == Forbidden
      ensures actor in old(users) ==> r == (if DatesAccepted(startDate, endDate, today) then Ok else Rejected)
      ensures r == Ok ==> id == old(nextItem) && id !in old(items) && nextItem == old(nextItem) + 1
      ensures r == Ok ==> items == old(items)[id := Item(name, description, startDate, endDate,
                                                          askingPrice, askingPrice, Some(actor), None)]
      ensures r != Ok ==> items == old(items) && nextItem == old(nextItem)
      ensures users == old(users) && nextUser == old(nextUser)
    {
      if actor !in users {
        return Forbidden, 0;
      }
      var item := Item(name, description, startDate, endDate, askingPrice, askingPrice, Some(actor), None);
      if item.startDate > item.endDate {
        return Rejected, 0;
      }
      if item.startDate < today {
        return Rejected, 0;
      }
      id := nextItem;
      items := items[id := item];
      nextItem := nextItem + 1;
      r := Ok;
    }

    /** `ItemEdit.post`: any logged-in user may overwrite any item; the edit is
        kept only when the new window passes the creation date rule. A missing
        item makes the handler raise. */
    method EditItem(actor: UserId, id: ItemId, name: string, description: string, askingPrice: Price,
                    startDate: Day, endDate: Day, today: Day) returns (r: Outcome)
      requires Valid()
      modifies this
      ensures Valid()
      ensures actor !in old(users) ==> r == Forbidden
      ensures actor in old(users) && id !in old(items) ==> r == ServerError
      ensures actor in old(users) && id in old(items) ==>
                r == (if DatesAccepted(startDate, endDate, today) then Ok else Rejected)
      ensures r == Ok ==> id in old(items)
      ensures r == Ok ==>
                items == old(items)[id := Overwrite(old(items)[id], name, description, askingPrice, startDate, endDate)]
      ensures r != Ok ==> items == old(items)
      ensures users == old(users) && nextUser == old(nextUser) && nextItem == old(nextItem)
    {
      if actor !in users {
        return Forbidden;
      }
      if id !in items {
        return ServerError;
      }
      var item := Overwrite(items[id], name, description, askingPrice, startDate, endDate);
      if item.startDate > item.endDate {
        return Rejected;
      }
      if item.startDate < today {
        return Rejected;
      }
      items := items[id := item];
      r := Ok;
    }

    /** Deletes the given items, one at a time. */
    method RemoveItems(gone: set<ItemId>)
      requires Valid()
      modifies this
      ensures Valid()
      ensures items == old(items) - gone
      ensures users == old(users) && nextUser == old(nextUser) && nextItem == old(nextItem)
    {
      var todo := gone;
      while todo != {}
        invariant todo <= gone
        invariant items == old(items) - (gone - todo)
        invariant Valid() && users == old(users) && nextUser == old(nextUser) && nextItem == old(nextItem)
        decreases todo
      {
        var i :| i in todo;
        items := items - {i};
        todo := todo - {i};
      }
    }

    /** `UserOne.post`: the logged-in user's profile is overwritten (the nick
        without a uniqueness check); the owned items marked for deletion are
        deleted; and on `deluser` every item the user owns is deleted, then the
        user. */
    method EditProfile(actor: UserId, nick: string, firstName: string, lastName: string,
                       delItems: set<ItemId>, delUser: bool) returns (r: Outcome)
      requires Valid()
      modifies this
      ensures Valid()
      ensures r == (if actor in old(users) then Ok else Forbidden)
      ensures r == Ok && !delUser ==>
                && users == old(users)[actor := old(users)[actor].(nick := nick, firstName := firstName, lastName := lastName)]
                && items == old(items) - (Owned(old(items), actor) * delItems)
      ensures r == Ok && delUser ==>
                && users == old(users) - {actor}
                && items == old(items) - Owned(old(items), actor)
      ensures r != Ok ==> users == old(users) && items == old(items)
      ensures nextUser == old(nextUser) && nextItem == old(nextItem)
    {
      if actor !in users {
        return Forbidden;
      }
      users := users[actor := users[actor].(nick := nick, firstName := firstName, lastName := lastName)];
      RemoveItems(Owned(items, actor) * delItems);
      if delUser {
        RemoveItems(Owned(items, actor));
        users := users - {actor};
      }
      r := Ok;
    }
  }
}
