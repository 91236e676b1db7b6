/** The older JSON interface of auction_site/.routes.py: the same tables,
    with partial updates read through `value_form`, owner-or-admin and
    self-or-admin permissions, and admin-only purges. */
module ApiRoutes {
  import opened Options
  import opened Auction

  /** The partial update of `ItemOne.put`: name, description, current price
      and end date take the value supplied in the body or keep the old one;
      start date, asking price, owner and winner never change. */
  function PatchItem(item: Item, form: Form): (r: Item)
    ensures r.startDate == item.startDate && r.askingPrice == item.askingPrice
    ensures r.owner == item.owner && r.winner == item.winner
    ensures "name" in form && form["name"].JText? ==> r.name == form["name"].text
    ensures "name" !in form ==> r.name == item.name
    ensures "description" in form && form["description"].JText? ==> r.description == form["description"].text
    ensures "description" !in form ==> r.description == item.description
    ensures "current_price" in form && form["current_price"].JNumber? ==> r.currentPrice == form["current_price"].number
    ensures "current_price" !in form ==> r.currentPrice == item.currentPrice
    ensures "end_date" in form && form["end_date"].JDay? ==> r.endDate == form["end_date"].day
    ensures "end_date" !in form ==> r.endDate == item.endDate
  {
    item.(name := TextOr(form, "name", item.name),
          description := TextOr(form, "description", item.description),
          currentPrice := NumberOr(form, "current_price", item.currentPrice),
          endDate := DayOr(form, "end_date", item.endDate))
  }

  /** The partial update can set the current price below the asking price,
      and lower it below an accepted bid. */
  lemma PatchItemCanUndercut(owner: UserId, today: Day)
    ensures var item := Item("lot", "", today, today, 10, 20, Some(owner), None);
      var r := PatchItem(item, map["current_price" := JNumber(1)]);
      r.currentPrice < item.askingPrice && r.currentPrice < item.currentPrice
  {
  }

  /** The partial update of `UserOne.put`: nick and names take the supplied
      value or keep the old one; nothing else changes. */
  function PatchUser(user: User, form: Form): (r: User)
    ensures r.registered == user.registered && r.active == user.active && r.admin == user.admin
    ensures "nick" in form && form["nick"].JText? ==> r.nick == form["nick"].text
    ensures "nick" !in form ==> r.nick == user.nick
    ensures "first_name" in form && form["first_name"].JText? ==> r.firstName == form["first_name"].text
    ensures "first_name" !in form ==> r.firstName == user.firstName
    ensures "last_name" in form && form["last_name"].JText? ==> r.lastName == form["last_name"].text
    ensures "last_name" !in form ==> r.lastName == user.lastName
  {
    user.(nick := TextOr(form, "nick", user.nick),
          firstName := TextOr(form, "first_name", user.firstName),
          lastName := TextOr(form, "last_name", user.lastName))
  }

  /** The set of ids a list names. */
  function IdSet(ids: seq<ItemId>): set<ItemId>
  {
    set k | 0 <= k < |ids| :: ids[k]
  }

  /** The loop of `UserOne.patch` that rejects the request at the first id
      naming no item. */
  method AllExist(ids: seq<ItemId>, items: map<ItemId, Item>) returns (ok: bool)
    ensures ok <==> forall k :: 0 <= k < |ids| ==> ids[k] in items
  {
    for n := 0 to |ids|
      invariant forall k :: 0 <= k < n ==> ids[k] in items
    {
      if ids[n] !in items {
        return false;
      }
    }
    return true;
  }

  /** `[i for i in Item.query.all() if i.id in items_ids]`: the existing items
      the list names. */
  method SelectItems(items: map<ItemId, Item>, ids: seq<ItemId>) returns (chosen: set<ItemId>)
    ensures chosen == items.Keys * IdSet(ids)
  {
    chosen := {};
    var todo := items.Keys;
    while todo != {}
      invariant todo <= items.Keys
      invariant chosen == (items.Keys - todo) * IdSet(ids)
      decreases todo
    {
      var i :| i in todo;
      if i in ids {
        chosen := chosen + {i};
      }
      todo := todo - {i};
    }
  }

  /** `user.user_items = items`: the chosen items pass to `u`, the items `u`
      owned and that were not chosen lose their owner. */
  function Reassign(items: map<ItemId, Item>, u: UserId, chosen: set<ItemId>): (r: map<ItemId, Item>)
    ensures r.Keys == items.Keys
    ensures forall i :: i in r ==> r[i].(owner := items[i].owner) == items[i]
  {
    map i | i in items ::
      if i in chosen then items[i].(owner := Some(u))
      else if items[i].owner == Some(u) then items[i].(owner := None)
      else items[i]
  }

  /** After the reassignment `u` owns exactly the chosen items, and every
      other user keeps what they owned except the chosen items. */
  lemma ReassignOwnsExactly(items: map<ItemId, Item>, u: UserId, chosen: set<ItemId>)
    requires chosen <= items.Keys
    ensures Owned(Reassign(items, u, chosen), u) == chosen
    ensures forall v :: v != u ==> Owned(Reassign(items, u, chosen), v) == Owned(items, v) - chosen
  {
  }

  /** The store behind .routes.py. */
  class ApiSite {
    var users: map<UserId, User>
    var items: map<ItemId, Item>
    var nextUser: nat
    var nextItem: nat

    /** What every handler keeps: ids are below the counters, every item has
        an ordered window and an owner that is unset or exists, and nicks are
        unique. */
    ghost predicate Valid()
      reads this
    {
      StoreOk(users, items, nextUser, nextItem)
    }

    ghost static predicate StoreOk(users: map<UserId, User>, items: map<ItemId, Item>, nextUser: nat, nextItem: nat)
    {
      && (forall u :: u in users ==> u < nextUser)
      && (forall i :: i in items ==> i < nextItem)
      && (forall i :: i in items ==> items[i].startDate <= items[i].endDate)
      && (forall i :: i in items ==> items[i].owner.Some? ==> items[i].owner.value in users)
      && NicksUnique(users)
    }

    /** The database as found. */
    constructor (users0: map<UserId, User>, items0: map<ItemId, Item>, nextUser0: nat, nextItem0: nat)
      requires StoreOk(users0, items0, nextUser0, nextItem0)
      ensures Valid()
      ensures users == users0 && items == items0 && nextUser == nextUser0 && nextItem == nextItem0
    {
      users, items, nextUser, nextItem := users0, items0, nextUser0, nextItem0;
    }

    /** `LoginUser.post`: the user found by nick is marked active when the
        password matches (`passwordOk` stands for the hash check). */
    method Login(nick: string, passwordOk: bool) returns (r: Outcome, who: Option<UserId>)
      requires Valid()
      modifies this
      ensures Valid()
      ensures who.Some? ==> who.value in old(users) && old(users)[who.value].nick == nick
      ensures who.None? <==> nick !in Nicks(old(users))
      ensures r == (if who.Some? && passwordOk then Ok else Rejected)
      ensures r == Ok ==> users == old(users)[who.value := old(users)[who.value].(active := true)]
      ensures r != Ok ==> users == old(users)
      ensures items == old(items) && nextUser == old(nextUser) && nextItem == old(nextItem)
    {
      who := FindByNick(users, nick);
      if who.Some? && passwordOk {
        users := users[who.value := users[who.value].(active := true)];
        r := Ok;
      } else {
        r := Rejected;
      }
    }

    /** `LoginUser.patch` (logout): the actor is marked inactive. With nobody
        logged in the handler raises. */
    method Logout(actor: UserId) returns (r: Outcome)
      requires Valid()
      modifies this
      ensures Valid()
      ensures r == (if actor in old(users) then Ok else ServerError)
      ensures r == Ok ==> users == old(users)[actor := old(users)[actor].(active := false)]
      ensures r != Ok ==> users == old(users)
      ensures items == old(items) && nextUser == old(nextUser) && nextItem == old(nextItem)
    {
      if actor !in users {
        return ServerError;
      }
      users := users[actor := users[actor].(active := false)];
      r := Ok;
    }

    /** `ItemsAll.post`: a reversed window or a start in the past is rejected;
        otherwise the item is stored with the actor as owner, the asking price
        as current price and no winner. */
    method CreateItem(actor: UserId, name: string, description: string, askingPrice: Price,
                      startDate: Day, endDate: Day, today: Day) returns (r: Outcome, id: ItemId)
      requires Valid()
      modifies this
      ensures Valid()
      ensures actor !in old(users) ==> r == Forbidden
      ensures actor in old(users) ==> r == (if DatesAccepted(startDate, endDate, today) then Ok else Rejected)
      ensures r == Ok ==> id == old(nextItem) && id !in old(items) && nextItem == old(nextItem) + 1
      ensures r == Ok ==> items == old(items)[id := Item(name, description, startDate, endDate,
                                                          askingPrice, askingPrice, Some(actor), None)]
      ensures r != Ok ==> items == old(items) && nextItem == old(nextItem)
      ensures users == old(users) && nextUser == old(nextUser)
    {
      if actor !in users {
        return Forbidden, 0;
      }
      var item := Item(name, description, startDate, endDate, askingPrice, askingPrice, Some(actor), None);
      if item.startDate > item.endDate {
        return Rejected, 0;
      }
      if item.startDate < today {
        return Rejected, 0;
      }
      id := nextItem;
      items := items[id := item];
      nextItem := nextItem + 1;
      r := Ok;
    }

    /** `ItemsAll.delete`: an admin deletes every item, one at a time; anyone
        else deletes nothing. */
    method PurgeItems(actor: UserId) returns (r: Outcome)
      requires Valid()
      modifies this
      ensures Valid()
      ensures r == (if actor in old(users) && old(users)[actor].admin then Ok else Forbidden)
      ensures r == Ok ==> items == map[]
      ensures r != Ok ==> items == old(items)
      ensures users == old(users) && nextUser == old(nextUser) && nextItem == old(nextItem)
    {
      if actor !in users || !users[actor].admin {
        return Forbidden;
      }
      var todo := items.Keys;
      while todo != {}
        invariant items.Keys == todo
        invariant forall i :: i in items ==> items[i] == old(items)[i]
        invariant Valid() && users == old(users) && nextUser == old(nextUser) && nextItem == old(nextItem)
        decreases todo
      {
        var i :| i in todo;
        items := items - {i};
        todo := todo - {i};
      }
      r := Ok;
    }

    /** `ItemOne.get`: the item, provided it exists; looking up an owner that
        is unset or gone makes the handler raise. */
    method GetItem(id: ItemId) returns (r: Outcome, item: Option<Item>)
      ensures r == NotFound <==> id !in items
      ensures r == ServerError <==> id in items && !(items[id].owner.Some? && items[id].owner.value in users)
      ensures r == Ok <==> item.Some?
      ensures item.Some? ==> id in items && item.value == items[id]
      ensures r in {Ok, NotFound, ServerError}
    {
      if id !in items {
        return NotFound, None;
      }
      var found := items[id];
      if found.owner.None? || found.owner.value !in users {
        return ServerError, None;
      }
      return Ok, Some(found);
    }

    /** `ItemOne.put`: only the owner or an admin may edit; the partial update
        is kept only when the start date is not after the new end date. */
    method EditItem(actor: UserId, id: ItemId, form: Form) returns (r: Outcome)
      requires Valid()
      modifies this
      ensures Valid()
      ensures actor !in old(users) ==> r == Forbidden
      ensures actor in old(users) && id !in old(items) ==> r == NotFound
      ensures actor in old(users) && id in old(items) && !OwnerOrAdmin(actor, old(users)[actor], old(items)[id]) ==>
                r == Forbidden
      ensures actor in old(users) && id in old(items) && OwnerOrAdmin(actor, old(users)[actor], old(items)[id]) ==>
                r == (if old(items)[id].startDate > PatchItem(old(items)[id], form).endDate then Rejected else Ok)
      ensures r == Ok ==> id in old(items) && items == old(items)[id := PatchItem(old(items)[id], form)]
      ensures r != Ok ==> items == old(items)
      ensures users == old(users) && nextUser == old(nextUser) && nextItem == old(nextItem)
    {
      if actor !in users {
        return Forbidden;
      }
      if id !in items {
        return NotFound;
      }
      var item := items[id];
      if item.owner != Some(actor) && !users[actor].admin {
        return Forbidden;
      }
      var edited := PatchItem(item, form);
      if edited.startDate > edited.endDate {
        return Rejected;
      }
      items := items[id := edited];
      r := Ok;
    }

    /** `ItemOne.patch`: any logged-in user may raise the current price; an
        offer not strictly above it, or no offer at all, is rejected. The
        winner is never recorded. */
    method RaiseBid(actor: UserId, id: ItemId, form: Form) returns (r: Outcome)
      requires Valid()
      modifies this
      ensures Valid()
      ensures actor !in old(users) ==> r == Forbidden
      ensures actor in old(users) && id !in old(items) ==> r == NotFound
      ensures actor in old(users) && id in old(items) ==>
                r == (if NumberOr(form, "current_price", old(items)[id].currentPrice) <= old(items)[id].currentPrice
                      then Rejected else Ok)
      ensures "current_price" !in form ==> r != Ok
      ensures r == Ok ==> id in old(items) && id in items && old(items)[id].currentPrice < items[id].currentPrice
      ensures r == Ok ==> items == old(items)[id := old(items)[id].(currentPrice := form["current_price"].number)]
      ensures r != Ok ==> items == old(items)
      ensures users == old(users) && nextUser == old(nextUser) && nextItem == old(nextItem)
    {
      if actor !in users {
        return Forbidden;
      }
      if id !in items {
        return NotFound;
      }
      var item := items[id];
      var value := NumberOr(form, "current_price", item.currentPrice);
      if value <= item.currentPrice {
        return Rejected;
      }
      items := items[id := item.(currentPrice := value)];
      r := Ok;
    }

    /** `ItemOne.delete`: only the owner or an admin may withdraw an item, bids
        or not. */
    method DeleteItem(actor: UserId, id: ItemId) returns (r: Outcome)
      requires Valid()
      modifies this
      ensures Valid()
      ensures actor !in old(users) ==> r == Forbidden
      ensures actor in old(users) && id !in old(items) ==> r == NotFound
      ensures actor in old(users) && id in old(items) ==>
                r == (if OwnerOrAdmin(actor, old(users)[actor], old(items)[id]) then Ok else Forbidden)
      ensures items == if r == Ok then old(items) - {id} else old(items)
      ensures users == old(users) && nextUser == old(nextUser) && nextItem == old(nextItem)
    {
      if actor !in users {
        return Forbidden;
      }
      if id !in items {
        return NotFound;
      }
      if items[id].owner != Some(actor) && !users[actor].admin {
        return Forbidden;
      }
      items := items - {id};
      r := Ok;
    }

    /** `UsersAll.post`: a nick already in use is rejected; otherwise a new,
        active, non-admin user is stored. */
    method Register(nick: string, firstName: string, lastName: string, today: Day) returns (r: Outcome, id: UserId)
      requires Valid()
      modifies this
      ensures Valid()
      ensures r == (if nick in Nicks(old(users)) then Rejected else Ok)
      ensures r == Ok ==> id == old(nextUser) && id !in old(users) && nextUser == old(nextUser) + 1
      ensures r == Ok ==> users == old(users)[id := User(nick, firstName, lastName, today, true, false)]
      ensures r != Ok ==> users == old(users) && nextUser == old(nextUser)
      ensures items == old(items) && nextItem == old(nextItem)
    {
      var taken := FindByNick(users, nick);
      if taken.Some? {
        return Rejected, 0;
      }
      id := nextUser;
      users := users[id := User(nick, firstName, lastName, today, true, false)];
      nextUser := nextUser + 1;
      r := Ok;
    }

    /** `UsersAll.delete`: an admin deletes every user, one at a time, which
        leaves every item without an owner; anyone else deletes nothing. */
    method PurgeUsers(actor: UserId) returns (r: Outcome)
      requires Valid()
      modifies this
      ensures Valid()
      ensures r == (if actor in old(users) && old(users)[actor].admin then Ok else Forbidden)
      ensures r == Ok ==> users == map[] && items == Orphan(old(items), old(users).Keys)
      ensures r == Ok ==> forall i :: i in items ==> items[i].owner == None
      ensures r != Ok ==> users == old(users) && items == old(items)
      ensures nextUser == old(nextUser) && nextItem == old(nextItem)
    {
      if actor !in users || !users[actor].admin {
        return Forbidden;
      }
      var todo := users.Keys;
      assert Orphan(items, {}) == items;
      while todo != {}
        invariant users.Keys == todo
        invariant forall u :: u in users ==> users[u] == old(users)[u]
        invariant items == Orphan(old(items), old(users).Keys - todo)
        invariant nextUser == old(nextUser) && nextItem == old(nextItem)
        decreases todo
      {
        var u :| u in todo;
        users := users - {u};
        OrphanStep(old(items), old(users).Keys - todo, u);
        items := Orphan(items, {u});
        assert old(users).Keys - todo + {u} == old(users).Keys - (todo - {u});
        todo := todo - {u};
      }
      r := Ok;
    }

    /** `UserOne.get`: the user and the items they own. */
    method GetUser(id: UserId) returns (r: Outcome, user: Option<User>, owned: set<ItemId>)
      ensures r == (if id in users then Ok else NotFound)
      ensures user.Some? <==> id in users
      ensures user.Some? ==> user.value == users[id]
      ensures forall i :: i in owned <==> i in items && items[i].owner == Some(id)
    {
      owned := Owned(items, id);
      if id !in users {
        return NotFound, None, owned;
      }
      return Ok, Some(users[id]), owned;
    }

    /** `UserOne.put`: only the user or an admin may edit; the partial update
        is rejected when the new nick is used and is not the user's own. */
    method EditUser(actor: UserId, id: UserId, form: Form) returns (r: Outcome)
      requires Valid()
      modifies this
      ensures Valid()
      ensures actor !in old(users) ==> r == Forbidden
      ensures actor in old(users) && id !in old(users) ==> r == NotFound
      ensures actor in old(users) && id in old(users) && !SelfOrAdmin(actor, old(users)[actor], id) ==> r == Forbidden
      ensures actor in old(users) && id in old(users) && SelfOrAdmin(actor, old(users)[actor], id) ==>
                var nick := PatchUser(old(users)[id], form).nick;
                r == (if nick in Nicks(old(users)) && nick != old(users)[id].nick then Rejected else Ok)
      ensures r == Ok ==> id in old(users) && users == old(users)[id := PatchUser(old(users)[id], form)]
      ensures r != Ok ==> users == old(users)
      ensures items == old(items) && nextUser == old(nextUser) && nextItem == old(nextItem)
    {
      if actor !in users {
        return Forbidden;
      }
      if id !in users {
        return NotFound;
      }
      if id != actor && !users[actor].admin {
        return Forbidden;
      }
      var user := users[id];
      var edited := PatchUser(user, form);
      var taken := FindByNick(users, edited.nick);
      if taken.Some? && edited.nick != user.nick {
        return Rejected;
      }
      users := users[id := edited];
      r := Ok;
    }

    /** `UserOne.patch`: only the user or an admin may reassign; without a list
        the handler raises, a list naming a missing item is rejected, and
        otherwise the user owns exactly the listed items. */
    method ReassignItems(actor: UserId, id: UserId, form: Form) returns (r: Outcome)
      requires Valid()
      modifies this
      ensures Valid()
      ensures actor !in old(users) ==> r == Forbidden
      ensures actor in old(users) && id !in old(users) ==> r == NotFound
      ensures actor in old(users) && id in old(users) && !SelfOrAdmin(actor, old(users)[actor], id) ==> r == Forbidden
      ensures actor in old(users) && id in old(users) && SelfOrAdmin(actor, old(users)[actor], id) ==>
                var ids := IdsOrNone(form, "user_items");
                r == (if ids.None? then ServerError
                      else if exists k :: 0 <= k < |ids.value| && ids.value[k] !in old(items) then Rejected
                      else Ok)
      ensures r == Ok ==> var ids := form["user_items"].ids;
                && items == Reassign(old(items), id, IdSet(ids))
                && Owned(items, id) == IdSet(ids)
                && forall v :: v != id ==> Owned(items, v) == Owned(old(items), v) - IdSet(ids)
      ensures r != Ok ==> items == old(items)
      ensures users == old(users) && nextUser == old(nextUser) && nextItem == old(nextItem)
    {
      if actor !in users {
        return Forbidden;
      }
      if id !in users {
        return NotFound;
      }
      if id != actor && !users[actor].admin {
        return Forbidden;
      }
      var ids := IdsOrNone(form, "user_items");
      if ids.None? {
        return ServerError;
      }
      var chosen := SelectItems(items, ids.value);
      var ok := AllExist(ids.value, items);
      if !ok {
        return Rejected;
      }
      assert chosen == IdSet(ids.value);
      ReassignOwnsExactly(items, id, chosen);
      items := Reassign(items, id, chosen);
      r := Ok;
    }

    /** `UserOne.delete`: only the user or an admin may delete the account; the
        user's items stay, without an owner. */
    method DeleteUser(actor: UserId, id: UserId) returns (r: Outcome)
      requires Valid()
      modifies this
      ensures Valid()
      ensures actor !in old(users) ==> r == Forbidden
      ensures actor in old(users) && id !in old(users) ==> r == NotFound
      ensures actor in old(users) && id in old(users) ==>
                r == (if SelfOrAdmin(actor, old(users)[actor], id) then Ok else Forbidden)
      ensures r == Ok ==> users == old(users) - {id} && items == Orphan(old(items), {id})
      ensures r != Ok ==> users == old(users) && items == old(items)
      ensures nextUser == old(nextUser) && nextItem == old(nextItem)
    {
      if actor !in users {
        return Forbidden;
      }
      if id !in users {
        return NotFound;
      }
      if id != actor && !users[actor].admin {
        return Forbidden;
      }
      users := users - {id};
      items := Orphan(items, {id});
      r := Ok;
    }
  }
}
