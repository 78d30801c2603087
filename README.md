# Flashcards web application: a verified model of its card table and handlers

The application is a single-user Flask site for studying flashcards. It has
one SQLite table, `cards(id, type, front, back, known)`, and one handler per
route. All the behaviour lives in `flash_cards.py`:

- a session guard in front of every route except `/`, `/connexion` and
  `/dexonnexion`;
- listing and filtering of the cards through a nine-key filter table;
- four mutations, each touching at most one row: add, edit, delete and mark known;
- the review ("memorize") flow of the six subject routes `cpp`, `web`,
  `alglin`, `mathdi`, `eco` and `systeme`;
- login against a configured username and password, and logout.

The model has two modules.

- `CardStore` (`CardStore.dfy`) is the table as a `map<int, Card>` from row id
  to row. It holds:
  - the WHERE clauses the application issues;
  - `Select`, the ordered query (`ORDER BY id DESC`);
  - the four row mutations as functions on the map;
  - the lookup by id and the random draw of `get_card`.
- `FlashCards` (`FlashCards.dfy`) holds:
  - the responses, as abstract values (`Redirect(endpoint, notice)` or one of
    the four pages);
  - the filter table and the `memorize` name-to-code chain, kept as two
    separate tables as the source has them, with a lemma that they agree;
  - `Memorize` and the credential check;
  - class `App`. Its fields are the table and the session's `logged_in` flag.
    It has one method per route. The mutating routes `modifies` the table;
    login and logout modify the flag.

Modelling choices:

- `ORDER BY RANDOM() LIMIT 1` is a nondeterministic choice. `Draw` takes an
  oracle `roll` that picks one of the matching rows, and `DrawReachesEvery`
  proves that every matching row can be picked. No distribution is modelled.
- Two facts come from `data/schema.sql`, which is not part of this model. They
  are assumptions here:
  - `known` defaults to 0 on insert;
  - a new row gets id `max(id) + 1`, or 1 in an empty table. This is SQLite's
    rowid allocation without AUTOINCREMENT.
- Saving an edit sets `known` from the form's `known` list (flash_cards.py:146-147, 155).
  An edit submitted without that field therefore resets `known` to false.
- Deleting the newest card and then adding one gives the new card the deleted
  card's id. This follows from the max+1 assumption above, not from
  `flash_cards.py`; a schema with AUTOINCREMENT would never reuse an id.
  `NewestIdReused` states it.

## Model

| member | source | states |
|---|---|---|
| `CardStore.Select` | flash_cards.py:105-108 | the query answers strictly descending ids; every row it returns is a row of the table satisfying the WHERE clause, and every such row is returned |
| `CardStore.DescendingUnique` | flash_cards.py:74 | two id-descending listings of the same rows are equal, so the answer of `ORDER BY id DESC` is determined |
| `CardStore.NextId` | flash_cards.py:117 | the id given to an inserted row is unused and larger than every id in the table |
| `CardStore.Inserted` | flash_cards.py:117-121 | an insert adds exactly one row, under the new id, with the given type, front and back and `known` false; all other rows are unchanged |
| `CardStore.Updated` | flash_cards.py:149-164 | an update by id overwrites the four fields of that row only; with an absent id the table is unchanged |
| `CardStore.MarkedKnown` | flash_cards.py:295 | marking sets `known` on that row only, keeps its other fields, and leaves the table unchanged for an absent id |
| `CardStore.Deleted` | flash_cards.py:175 | a delete removes exactly that id and keeps every other row as it was; an absent id changes nothing |
| `CardStore.ById` | flash_cards.py:274-287 | the lookup finds a row iff the id is in the table, and then it is that id's row |
| `CardStore.Draw` | flash_cards.py:256-271 | `get_card` returns a row of the table with the given type and `known` false, and returns nothing iff no such row exists |
| `CardStore.DrawReachesEvery` | flash_cards.py:266-267 | every unknown card of the type can be the one `ORDER BY RANDOM() LIMIT 1` returns |
| `CardStore.SelectAfterInsert` | flash_cards.py:117-122 | after an insert, every listing that admits the new row has it at its head, followed by the listing from before |
| `CardStore.NewestIdReused` | flash_cards.py:117-121 | under the max+1 id assumption, inserting a card and deleting it again gives the next insert the same id |
| `CardStore.SelectAfterDelete` | flash_cards.py:175 | after a delete, the lookup by that id finds nothing, and no listing holds that id; every other matching row is still listed |
| `FlashCards.CategoryCode` | flash_cards.py:226-240 | the chain gives a code iff the name is one of the six subjects, and the code is the subject's position 1 to 6 |
| `FlashCards.Listing` | flash_cards.py:70-78 | the `cards` page lists every row of the table, each once with its contents, newest first, under the filter name `all` (see also `FilterAll`) |
| `FlashCards.Filtered` | flash_cards.py:86-109 | with the nine-key table `Filters`: a key outside it redirects to the card list with no query; a key in it lists exactly the rows its WHERE clause admits, newest first, under that key (the per-key content is in `FilterAll`, `FilterCategory`, `FilterKnown` and `FilterUnknownKey`) |
| `FlashCards.CategoriesAgree` | flash_cards.py:86-96 | a name has code `c` in the `memorize` chain iff the filter table maps it to `type = c`: the two tables agree |
| `FlashCards.FilterUnknownKey` | flash_cards.py:100-103 | the filter answers a redirect iff the key is not one of the nine keys of `Filters`, and that redirect goes to the card list |
| `FlashCards.FilterAll` | flash_cards.py:66-78 | `/cartes` renders the same page as the filter `all`: every row of the table, newest first |
| `FlashCards.FilterCategory` | flash_cards.py:88-93 | a subject's filter lists exactly the rows whose type is that subject's code, newest first |
| `FlashCards.FilterKnown` | flash_cards.py:94-95 | `known` lists exactly the rows with `known` set and `unknown` exactly those without, newest first |
| `FlashCards.Memorize` | flash_cards.py:242-253 | unknown names redirect to the card list; with an id, the page shows exactly that card whatever its type and flag; without one, it shows an unknown card of the subject; the "learned them all" redirect comes exactly when no card results; `short_answer` holds iff the answer has fewer than 75 characters |
| `FlashCards.MemorizeShowsAny` | flash_cards.py:244-245 | without an id, the review can show any unknown card of the subject |
| `FlashCards.LastUnknownLearned` | flash_cards.py:246-248 | after the last unknown card of a subject is marked known, reviewing that subject without an id gives the "learned them all" redirect |
| `FlashCards.AddedCardHeadsListing` | flash_cards.py:117-124 | a newly added card heads the card list exactly once, not known, followed by the list from before |
| `FlashCards.MarkThenFetch` | flash_cards.py:295 | fetching a card by id after marking it known shows it known, with its other fields unchanged |
| `FlashCards.AddEditFetch` | flash_cards.py:158-164 | after adding a card and then editing it, a fetch by its id returns exactly the edited values |
| `FlashCards.CheckCredentials` | flash_cards.py:305-308 | the check passes iff both username and password match, and either mismatch yields the same message |
| `FlashCards.App.Index` | flash_cards.py:58-63 | `/` redirects to the `cpp` review when logged in, else to the login form |
| `FlashCards.App.Cards` | flash_cards.py:66-78 | without a session the answer is a redirect to login; with one, the full listing |
| `FlashCards.App.FilterCards` | flash_cards.py:81-109 | without a session the answer is a redirect to login; with one, the filter result |
| `FlashCards.App.AddCard` | flash_cards.py:112-124 | without a session: redirect to login, table unchanged; with one: one row inserted, then a redirect to the list |
| `FlashCards.App.Edit` | flash_cards.py:127-139 | without a session the answer is a redirect to login; with one, the edit form with the row, or empty for an absent id |
| `FlashCards.App.EditCard` | flash_cards.py:142-167 | without a session: redirect to login, table unchanged; with one: only the targeted row is overwritten, with `known` true iff the submitted `known` list is non-empty |
| `FlashCards.App.Delete` | flash_cards.py:170-178 | without a session: redirect to login, table unchanged; with one: the row is removed, or nothing happens for an absent id |
| `FlashCards.App.Review` | flash_cards.py:181-222 | for the six subject routes, without a session the answer is a redirect to login; with one, it is the `memorize` result |
| `FlashCards.App.MarkKnown` | flash_cards.py:290-298 | without a session: redirect to login, table unchanged; with one: `known` is set on that row only, then a redirect to the endpoint given by the caller, unchecked against the card's type |
| `FlashCards.App.Login` | flash_cards.py:301-313 | a GET shows the form; a POST sets the session flag iff both credentials match; otherwise it shows the one error message and leaves the flag alone |
| `FlashCards.App.Logout` | flash_cards.py:316-320 | the session flag is cleared and the answer redirects to the index |

## Left out

- Connection handling (`connect_db`, `get_db`, `close_db`, `init_db`, the request context): database plumbing of the framework, not behaviour of the application.
- Configuration loading and `app.run`: `App`'s constructor takes the configured username and password instead.
- Template rendering, `url_for` and the wording of flash messages: responses are abstract values, and flashes are `Notice` values.
- Session-cookie mechanics and `session.permanent`: the session is one boolean field.
- The randomness of `ORDER BY RANDOM()`: only "some matching row" is modelled, through the `roll` oracle.
- Concurrent requests and transaction isolation: each route is one sequential call.
- Flask's errors for missing form fields, and the `url_for` error for a `mark_known` endpoint name that is not a route: the model takes every field as present. `App.MarkKnown` answers a redirect to whatever name it is given.
- Text-typed ids and types: URL and form values are text that SQLite compares with the integer columns. The model takes them as integers. Text that does not convert matches no row, which behaves the same as an absent integer id.
- SQLite's random id when the largest rowid is already at the 64-bit maximum: the model's ids are unbounded.
- FlashCards.App.Review: requires one of the six subject names, because Flask only dispatches those six routes; `Memorize` itself handles every other name.
