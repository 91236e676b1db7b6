# Auction site rules in Dafny

This project models the auction rules in the Flask handlers of an online auction
site. Users register, log in and out, and list items for sale within a date
window. They bid on items and edit or withdraw their listings. Admins can purge
the tables. Persistence is two maps: the `user` table and the `item` table.
Each store is a class. Each handler is a method on it. The method takes the
acting user and "today" as parameters and returns an `Outcome` in place of the
HTTP status.

The repository has two sets of handlers over the same tables. Both are modelled,
with shared datatypes and separate classes:

- `auction_site/routes.py` is the form-based site that is live. It becomes
  `LiveRoutes.LiveSite` (file `live_routes.dfy`).
- `auction_site/.routes.py` is the older JSON interface. It becomes
  `ApiRoutes.ApiSite` (file `api_routes.dfy`).
- `auction_site/functions.py` holds `value_form`, the lookup-with-default that
  the JSON handlers use for partial updates. It becomes `Forms.ValueForm`
  (file `forms.dfy`).

The shared module `Auction` (file `auction.dfy`) holds `User`, `Item`, `Outcome`,
the decoded JSON body (`Form`, a map from keys to `Json` values), the permission
and date rules, and the nick lookup.

Modelling conventions:

- Dates are day numbers. Prices are integers.
- An actor id that is not in the user table means nobody is logged in.
  `login_required` then answers `Forbidden` (HTTP 401 in the source).
- A handler that raises in the source answers `ServerError` and commits
  nothing. Examples are a missing item in the live handlers and a GET of an
  item whose owner is gone.
- `user.user_items` is the query `Auction.Owned` over `Item.owner`, which is
  the `owner_id` foreign key. The relational mapping clears the foreign key
  when the owner is deleted or when the item is dropped from a user's list.
  The model does this explicitly in `Auction.Orphan` and `ApiRoutes.Reassign`.
- Each store keeps an invariant `Valid()`, and every handler preserves it. In
  both stores, ids stay below the id counters, every item has
  `startDate <= endDate`, and every owner exists. The live store also keeps
  `askingPrice <= currentPrice`. The JSON store also keeps nicks unique.
  Neither invariant holds in the other store. The JSON edit can set any current
  price (`ApiRoutes.PatchItemCanUndercut`). The live profile edit changes the
  nick without checking it.

Where the code departs from what an auction is usually expected to do, the model
follows the code:

- No handler checks the bidding window. A bid after the end date is accepted
  if it is high enough. `LiveRoutes.PlaceBid` takes no date at all.
- Owners may bid on their own items.
- The live edit lets any logged-in user overwrite any item. It also rewrites
  the asking price and resets the current price to it, so the price can fall
  below an accepted bid (`LiveRoutes.EditCanLowerPrice`).
- The live profile edit (`routes.py:141`) changes the nick without a
  uniqueness check. The database has no unique constraint on nicks.
- The JSON bid (`ItemOne.patch`) never records a winner.
- Withdrawing an item that already has a winner is allowed.

## Model

| member | source | states |
|---|---|---|
| `Forms.ValueForm` | auction_site/functions.py:1-7 | for a dictionary form: a present key gives its stored value and an absent key gives the default, so no KeyError escapes; the form is not changed |
| `Forms.ValueFormOrNone` | auction_site/functions.py:1-5 | with no default, the result is None exactly when the key is absent, and the stored value otherwise |
| `Forms.ValueFormEmptyKeepsDefault` | auction_site/functions.py:4-5 | an empty form yields the default, so an empty partial update keeps the old value |
| `Auction.TextOr` | auction_site/.routes.py:157-158 | a text body field: the supplied text if present, otherwise the old value |
| `Auction.NumberOr` | auction_site/.routes.py:182 | a numeric body field: the supplied number if present, otherwise the default (the current price) |
| `Auction.DayOr` | auction_site/.routes.py:160-163 | a date body field: the supplied day if present, otherwise the old end date |
| `Auction.IdsOrNone` | auction_site/.routes.py:336 | the `user_items` list if supplied, otherwise None |
| `Auction.OwnerOrAdmin` | auction_site/.routes.py:151 | the item's owner and every admin may edit or delete it, and nobody else; an item without an owner is left to admins (the same check guards the delete at .routes.py:202) |
| `Auction.SelfOrAdmin` | auction_site/.routes.py:304 | every user may act on their own account and an admin on every account, and nobody else (the same check guards .routes.py:332 and 358) |
| `Auction.DatesAccepted` | auction_site/routes.py:256-263 | a listing is accepted iff today <= start <= end, so an accepted item has not ended; the live edit (routes.py:308-315) and the JSON create (.routes.py:95-99) apply the same rule |
| `Auction.Owned` | auction_site/.routes.py:282 | `user.user_items` is exactly the items whose owner is the user; this rests on the assumed default one-to-many relationship, since models.py does not define it |
| `Auction.OwnedDisjoint` | auction_site/.routes.py:282 | under that relationship an item is on at most one user's list |
| `Auction.Orphan` | auction_site/.routes.py:361 | deleting users clears the owner of exactly the items they owned; keys and all other fields are unchanged |
| `Auction.OrphanStep` | auction_site/.routes.py:266-267 | deleting users one at a time orphans the same items as deleting them all at once |
| `Auction.FindByNick` | auction_site/routes.py:63 | the scan of all users finds a user with the given nick, or none exactly when the nick is unused |
| `LiveRoutes.PlaceBid` | auction_site/routes.py:213-215 | the item changes iff the bid is strictly above the current price; then the price is the bid and the winner is the bidder; the price never drops; no other field changes |
| `LiveRoutes.BidsKeepHighest` | auction_site/routes.py:213-218 | after any sequence of bids, the price is at least every bid and the starting price, and only price and winner change; either nothing was accepted or the winner is the first bidder who offered the final price |
| `LiveRoutes.OfferSequenceExample` | auction_site/routes.py:213-215 | with asking price 10: a bid of 10 is refused, 15 is accepted with its bidder as winner, and a later 12 changes nothing |
| `LiveRoutes.Overwrite` | auction_site/routes.py:301-306 | an edit overwrites name, description, asking price and both dates, sets the current price to the new asking price, and keeps owner and winner |
| `LiveRoutes.EditCanLowerPrice` | auction_site/routes.py:303-304 | an edit can drop the current price below an accepted bid |
| `LiveRoutes.SkipScan` | auction_site/routes.py:149-151 | what removing from `user.user_items` while iterating over it leaves: the list never grows, gains no new id, and keeps every unticked item |
| `LiveRoutes.SkipScanKeepsPrefix` | auction_site/routes.py:149-151 | the remove-while-iterating scan never changes the part of the list before its index |
| `LiveRoutes.SkipScanMissesNeighbour` | auction_site/routes.py:149-151 | when the scan reaches a ticked item whose next neighbour is also ticked, that neighbour is left in the list |
| `LiveRoutes.DelItemsAsWritten` | auction_site/routes.py:149-152 | the `delitem` loop as written leaves the list that the skipping scan produces |
| `LiveRoutes.DelItemsSkipWitness` | auction_site/routes.py:149-151 | with items [1, 2] both ticked, the loop as written keeps [2] |
| `LiveRoutes.Unmarked` | auction_site/routes.py:149-152 | the intended `delitem` result: an id is kept iff it is listed and not ticked, the list never grows, and with nothing ticked the list is unchanged |
| `LiveRoutes.DelItems` | auction_site/routes.py:149-152 | the intended loop keeps exactly the unticked items, in their original order |
| `LiveRoutes.LiveSite.Logout` | auction_site/routes.py:28-33 | the actor becomes inactive and nothing else changes; with nobody logged in the handler raises |
| `LiveRoutes.LiveSite.Login` | auction_site/routes.py:83-97 | succeeds iff a user has the nick and the password matches; only that user becomes active; otherwise nothing changes |
| `LiveRoutes.LiveSite.Register` | auction_site/routes.py:48-69 | rejected with no change iff the nick is taken; otherwise one new user under a fresh id, active, not admin, owning nothing |
| `LiveRoutes.LiveSite.Bid` | auction_site/routes.py:205-220 | accepted iff the price is strictly above the current one, and then the item becomes PlaceBid of it; dates and ownership are not consulted; a missing item raises; otherwise nothing changes |
| `LiveRoutes.LiveSite.CreateItem` | auction_site/routes.py:241-265 | rejected with no change iff start > end or start < today; otherwise one new item under a fresh id, with the asking price as current price, the actor as owner and no winner |
| `LiveRoutes.LiveSite.EditItem` | auction_site/routes.py:294-317 | any logged-in user may edit; kept iff the new dates pass the creation rule, and then the item becomes Overwrite of it; a missing item raises; a rejected edit changes nothing |
| `LiveRoutes.LiveSite.RemoveItems` | auction_site/routes.py:158-159 | deleting items one at a time removes exactly the given ids and keeps the invariant |
| `LiveRoutes.LiveSite.EditProfile` | auction_site/routes.py:136-166 | the actor's nick and names are overwritten and the ticked items they own are deleted; on `deluser`, every item they own is deleted, then the user |
| `ApiRoutes.PatchItem` | auction_site/.routes.py:157-163 | name, description, current price and end date take the supplied value or keep the old one; start date, asking price, owner and winner never change |
| `ApiRoutes.PatchItemCanUndercut` | auction_site/.routes.py:159 | the partial update can put the current price below the asking price and below an accepted bid |
| `ApiRoutes.PatchUser` | auction_site/.routes.py:311-313 | nick and names take the supplied value or keep the old one; other fields never change |
| `ApiRoutes.AllExist` | auction_site/.routes.py:339-341 | true iff every listed id names an existing item |
| `ApiRoutes.SelectItems` | auction_site/.routes.py:337 | the chosen ids are exactly the existing items that the list names |
| `ApiRoutes.Reassign` | auction_site/.routes.py:343 | only owners change: chosen items go to the user, and the user's unchosen items lose their owner |
| `ApiRoutes.ReassignOwnsExactly` | auction_site/.routes.py:336-343 | afterwards the user owns exactly the chosen items; every other user keeps what they owned except the chosen items |
| `ApiRoutes.ApiSite.Login` | auction_site/.routes.py:24-36 | succeeds iff a user has the nick and the password matches; only that user becomes active |
| `ApiRoutes.ApiSite.Logout` | auction_site/.routes.py:39-46 | the actor becomes inactive and nothing else changes; with nobody logged in the handler raises |
| `ApiRoutes.ApiSite.CreateItem` | auction_site/.routes.py:77-104 | rejected with no change iff start > end or start < today; otherwise one new item with current price = asking price, owner = actor, no winner |
| `ApiRoutes.ApiSite.PurgeItems` | auction_site/.routes.py:107-119 | a non-admin is refused and nothing is deleted; an admin leaves the item table empty; users are untouched |
| `ApiRoutes.ApiSite.GetItem` | auction_site/.routes.py:125-143 | NotFound iff the id is absent; raises iff the item's owner is unset or gone; otherwise returns exactly the stored item |
| `ApiRoutes.ApiSite.EditItem` | auction_site/.routes.py:146-173 | NotFound for a missing id; Forbidden unless owner or admin; otherwise the item becomes PatchItem of it, unless its start is after the new end, which is rejected with no change |
| `ApiRoutes.ApiSite.RaiseBid` | auction_site/.routes.py:176-194 | accepted iff the supplied price is strictly above the current price, so a missing price is always rejected; only the price changes and no winner is recorded |
| `ApiRoutes.ApiSite.DeleteItem` | auction_site/.routes.py:197-210 | NotFound for a missing id; Forbidden unless owner or admin, with no change; otherwise exactly that item is removed |
| `ApiRoutes.ApiSite.Register` | auction_site/.routes.py:237-256 | rejected with no change iff the nick is taken; otherwise one new active, non-admin user; nicks stay unique |
| `ApiRoutes.ApiSite.PurgeUsers` | auction_site/.routes.py:259-272 | a non-admin is refused and nothing is deleted; an admin empties the user table and every item is left without an owner |
| `ApiRoutes.ApiSite.GetUser` | auction_site/.routes.py:278-296 | NotFound iff the id is absent; otherwise the stored user and exactly the items they own |
| `ApiRoutes.ApiSite.EditUser` | auction_site/.routes.py:299-324 | Forbidden unless self or admin; the partial update is rejected iff the new nick is in use and is not the user's own; nicks stay unique |
| `ApiRoutes.ApiSite.ReassignItems` | auction_site/.routes.py:327-350 | Forbidden unless self or admin; a missing list raises; rejected with no change iff a listed id is not an item; otherwise the user owns exactly the listed items |
| `ApiRoutes.ApiSite.DeleteUser` | auction_site/.routes.py:353-367 | Forbidden unless self or admin; otherwise the user is removed and their items stay, without an owner |

## Left out

- Templates, redirects, `jsonify` and the `_links` dictionaries are presentation. So are the list handlers (`ItemsAll.get`, `UsersAll.get`) and the live GET handlers.
- Database sessions, commits and migrations are not modelled. A commit is the new state of the maps. A request that raises or returns before its commit leaves the maps as they were.
- Form validation (`validate_on_submit`) is not modelled, because auction_site/forms.py is not part of this model. The live handlers take their form values as already valid.
- Password hashing is left out. `passwordOk` stands for `check_password_hash`. The password change at `routes.py:145-146` and the re-hash at `.routes.py:314` are not modelled. That re-hash hashes the stored hash again when no password is supplied.
- Session handling (`login_user`, `logout_user`, `current_user`) is left out. The actor is a parameter. `UserOne.post` ignores its `user_id` and edits the logged-in user, so `LiveSite.EditProfile` takes no user id.
- Date text parsing with `strptime`/`strftime` is left out. Dates are day numbers, and malformed date text, which raises in the source, is not modelled.
- Prices are floats in the database and integers here.
- A JSON value of the wrong type (text where a number is expected, say) reads as absent in `TextOr`, `NumberOr`, `DayOr` and `IdsOrNone`. The source stores such a value as it is or raises later.
- `ApiSite.CreateItem` and `ApiSite.Register` take decoded values. When a required key is missing, `value_form` yields None, which the source hands to `strptime` or to the database. That path is not modelled.
- New ids come from a counter. SQLite may reuse the largest deleted id.
- auction_site/models.py is stale and does not define `owner_id`, `winner_id` or the `user_items` relationship. The model assumes the default one-to-many mapping: deleting a user, or dropping an item from `user_items`, clears the item's owner.
- The read-modify-write race on the current price is not modelled. Each handler is one atomic step.
- `LiveSite.Bid`: the source answers HTTP 200 whether or not the bid is accepted. `Rejected` here only marks that nothing changed.
- `ApiSite.Login`: the source always answers with the "Bad nick or password" body. The outcome here reports whether the login took effect.
- `Forms.ValueForm`: the JSON body is taken to be a JSON object. For any other body (`null`, a list, a string or a number), `form[key]` raises TypeError. The `except KeyError` does not catch it, and the `return value` in the `finally` then raises UnboundLocalError. Every JSON handler that reads its body then answers HTTP 500, and the model does not capture this.
- `LiveRoutes.LiveSite.EditProfile`: follows the corrected `delitem` behaviour and deletes every ticked item the user owns. When two adjacent owned items are ticked, the model deletes both, while routes.py:149-151 keeps the second (see `LiveRoutes.DelItemsAsWritten`).
- `Auction.FindByNick`: it returns some user with the nick, not the first row in table order, because the model has no row order. `LiveSite.Login` and `ApiSite.Login` inherit this.

## Findings

| source | as written | input that shows it | evidently intended | confidence | as-written member | corrected member |
|---|---|---|---|---|---|---|
| auction_site/routes.py:149-151 | the `delitem` loop removes items from `user.user_items` while iterating over that list, so the item after each removed one is never visited | the user owns items [1, 2] and ticks both: only item 1 is deleted and item 2 stays | every ticked item the user owns is deleted | high; not executed | `LiveRoutes.DelItemsAsWritten` | `LiveRoutes.DelItems` |

