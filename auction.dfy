/** The data both versions of the site share: users, items, the outcome of a
    request, the decoded JSON body, and the permission and date rules. */
module Auction {
  import opened Options
  import opened Forms

  type UserId = nat
  type ItemId = nat
  /** A calendar date as a day number. */
  type Day = int
  /** A price; the database column is a float, the model uses integers. */
  type Price = int

  /** A row of the `user` table (the password hash is not modelled). */
  datatype User = User(
    nick: string,
    firstName: string,
    lastName: string,
    registered: Day,
    active: bool,
    admin: bool)

  /** A row of the `item` table. `owner` is the nullable `owner_id` foreign
      key; `winner` is `winner_id`, unset until a bid is accepted. */
  datatype Item = Item(
    name: string,
    description: string,
    startDate: Day,
    endDate: Day,
    askingPrice: Price,
    currentPrice: Price,
    owner: Option<UserId>,
    winner: Option<UserId>)

  /** What a handler answers, in place of its HTTP status: `Ok` (200, 201 or
      303 after a commit), `Rejected` (400, or a request that leaves the store
      as it was), `NotFound` (404), `Forbidden` (401: not logged in, or not
      allowed), `ServerError` (the handler raises; nothing is committed). */
  datatype Outcome = Ok | Rejected | NotFound | Forbidden | ServerError

  /** A value of the JSON request body. Dates arrive already decoded to day
      numbers. */
  datatype Json = JText(text: string) | JNumber(number: int) | JDay(day: Day) | JIds(ids: seq<ItemId>)

  type Form = map<string, Json>

  /** A text field of the body, read with `value_form`; a value of another
      JSON type reads as absent. */
  function TextOr(form: Form, key: string, default: string): (r: string)
    ensures key in form && form[key].JText? ==> r == form[key].text
    ensures !(key in form && form[key].JText?) ==> r == default
  {
    match ValueForm(form, key, JText(default))
    case JText(t) => t
    case _ => default
  }

  /** A number field of the body, read with `value_form`. */
  function NumberOr(form: Form, key: string, default: int): (r: int)
    ensures key in form && form[key].JNumber? ==> r == form[key].number
    ensures !(key in form && form[key].JNumber?) ==> r == default
  {
    match ValueForm(form, key, JNumber(default))
    case JNumber(n) => n
    case _ => default
  }

  /** A date field of the body, read with `value_form`. */
  function DayOr(form: Form, key: string, default: Day): (r: Day)
    ensures key in form && form[key].JDay? ==> r == form[key].day
    ensures !(key in form && form[key].JDay?) ==> r == default
  {
    match ValueForm(form, key, JDay(default))
    case JDay(d) => d
    case _ => default
  }

  /** A list of item ids, read with `value_form` and no default. */
  function IdsOrNone(form: Form, key: string): (r: Option<seq<ItemId>>)
    ensures key in form && form[key].JIds? ==> r == Some(form[key].ids)
    ensures !(key in form && form[key].JIds?) ==> r == None
  {
    var v: Option<Json> := ValueFormOrNone(form, key);
    if v.Some? && v.value.JIds? then Some(v.value.ids) else None
  }

  /** The owner-or-admin permission on an item: the owner and every admin may
      act on it, and nobody else; an item without an owner is left to admins. */
  function OwnerOrAdmin(actorId: UserId, actor: User, item: Item): (r: bool)
    ensures item.owner == Some(actorId) ==> r
    ensures actor.admin ==> r
    ensures r && !actor.admin ==> item.owner == Some(actorId)
    ensures item.owner.None? ==> (r <==> actor.admin)
  {
    item.owner == Some(actorId) || actor.admin
  }

  /** The self-or-admin permission on a user account: every user may act on
      their own account, an admin on every account, and nobody else. */
  function SelfOrAdmin(actorId: UserId, actor: User, target: UserId): (r: bool)
    ensures target == actorId ==> r
    ensures actor.admin ==> r
    ensures r && !actor.admin ==> target == actorId
  {
    target == actorId || actor.admin
  }

  /** The date rule of item creation: the window is not reversed and does not
      start in the past, so an accepted item has not ended either. */
  function DatesAccepted(startDate: Day, endDate: Day, today: Day): (r: bool)
    ensures r <==> today <= startDate <= endDate
    ensures r ==> today <= endDate
  {
    !(startDate > endDate) && !(startDate < today)
  }

  /** Every nick in use. */
  function Nicks(users: map<UserId, User>): set<string>
  {
    set u | u in users :: users[u].nick
  }

  /** No two users share a nick. */
  ghost predicate NicksUnique(users: map<UserId, User>)
  {
    forall u, v :: u in users && v in users && u != v ==> users[u].nick != users[v].nick
  }

  /** `user.user_items`: the items whose owner is `u`. */
  function Owned(items: map<ItemId, Item>, u: UserId): (r: set<ItemId>)
    ensures r <= items.Keys
    ensures forall i :: i in r <==> i in items && items[i].owner == Some(u)
  {
    set i | i in items && items[i].owner == Some(u)
  }

  /** An item is on at most one user's list. */
  lemma OwnedDisjoint(items: map<ItemId, Item>, u: UserId, v: UserId)
    requires u != v
    ensures Owned(items, u) !! Owned(items, v)
  {
  }

  /** The items after the users in `gone` are deleted: the relational mapping
      clears the owner of the items they owned. */
  function Orphan(items: map<ItemId, Item>, gone: set<UserId>): (r: map<ItemId, Item>)
    ensures r.Keys == items.Keys
    ensures forall i :: i in r ==> r[i].owner.Some? ==> r[i].owner.value !in gone
    ensures forall i :: i in r ==> r[i].(owner := items[i].owner) == items[i]
    ensures forall i :: i in r ==>
              r[i].owner == (if items[i].owner.Some? && items[i].owner.value in gone then None else items[i].owner)
  {
    map i | i in items :: if items[i].owner.Some? && items[i].owner.value in gone then items[i].(owner := None) else items[i]
  }

  /** Deleting users one after another orphans the same items as deleting
      them together. */
  lemma OrphanStep(items: map<ItemId, Item>, gone: set<UserId>, u: UserId)
    ensures Orphan(Orphan(items, gone), {u}) == Orphan(items, gone + {u})
  {
  }

  /** `User.query.filter_by(nick=nick).first()`, and the scan behind
      `nick in [u.nick for u in User.query.all()]`: some user with that nick,
      or none when the nick is unused. */
  method FindByNick(users: map<UserId, User>, nick: string) returns (found: Option<UserId>)
    ensures found.Some? ==> found.value in users && users[found.value].nick == nick
    ensures found.None? <==> nick !in Nicks(users)
  {
    var todo := users.Keys;
    while todo != {}
      invariant todo <= users.Keys
      invariant forall u :: u in users && u !in todo ==> users[u].nick != nick
      decreases todo
    {
      var u :| u in todo;
      if users[u].nick == nick {
        return Some(u);
      }
      todo := todo - {u};
    }
    return None;
  }
}
