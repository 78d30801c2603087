/** The request handlers of the flashcard application: the session guard,
    the filter table, the review ("memorize") flow, the four mutations of
    the `cards` table, and login/logout. */
module FlashCards {
  import opened CardStore

  /** The messages the handlers flash before redirecting, without their
      wording. */
  datatype Notice =
    | Added
    | Saved
    | Removed
    | AllLearned(category: string)
    | MarkedLearned
    | LoggedOut

  /** What a handler answers: a redirect to a named endpoint (after an
      optional flash), or one of the four rendered templates. */
  datatype Response =
    | Redirect(endpoint: string, notice: Option<Notice>)
    | CardsPage(rows: seq<Row>, filterName: string)
    | EditPage(form: Option<Row>)
    | MemorizePage(shown: Row, category: string, shortAnswer: bool)
    | LoginPage(error: Option<string>)

  /** The one error message of a failed login. */
  const BadCredentials := "Identifiant ou mot de passe incorrect!"

  /** The six subject names, in the order of their codes 1 to 6. */
  const Categories: seq<string> := ["cpp", "web", "alglin", "mathdi", "eco", "systeme"]

  /** The filter table of `filter_cards`: filter key to WHERE clause. */
  const Filters: map<string, Where> := map[
    "all" := Always,
    "cpp" := CategoryIs(1),
    "web" := CategoryIs(2),
    "alglin" := CategoryIs(3),
    "mathdi" := CategoryIs(4),
    "eco" := CategoryIs(5),
    "systeme" := CategoryIs(6),
    "known" := KnownIs(true),
    "unknown" := KnownIs(false)
  ]

  /** The `if/elif` chain at the head of `memorize`: subject name to
      category code; any other name has none. The code of a subject is its
      position in Categories, counted from 1. */
  function CategoryCode(name: string): (code: Option<int>)
    ensures code.Some? <==> name in Categories
    ensures code.Some? ==> 1 <= code.value <= |Categories| && Categories[code.value - 1] == name
  {
    if name == "cpp" then Some(1)
    else if name == "web" then Some(2)
    else if name == "alglin" then Some(3)
    else if name == "mathdi" then Some(4)
    else if name == "eco" then Some(5)
    else if name == "systeme" then Some(6)
    else None
  }

  /** Some card of category `code` is not yet known. */
  ghost predicate HasUnknown(t: Table, code: int)
  {
    exists id :: id in t && t[id].category == code && !t[id].known
  }

  /** The page `cards` renders: every row, newest first. */
  function Listing(t: Table): (r: Response)
    ensures r.CardsPage? && r.filterName == "all"
    ensures Descending(r.rows)
    ensures forall row :: row in r.rows <==> row.id in t && row.card == t[row.id]
  {
    CardsPage(Select(t, Always), "all")
  }

  /** What `filter_cards` answers once past the session guard: a key
      outside the filter table redirects to the card list without a query;
      a key in it lists exactly the rows its WHERE clause admits, newest
      first. */
  function Filtered(t: Table, name: string): (r: Response)
    ensures r.Redirect? <==> name !in Filters
    ensures r.Redirect? ==> r == Redirect("cards", None)
    ensures r.CardsPage? ==> r.filterName == name && Descending(r.rows)
    ensures r.CardsPage? ==> forall row :: row in r.rows <==>
      row.id in t && row.card == t[row.id] && Satisfies(row.card, Filters[name])
  {
    if name in Filters then CardsPage(Select(t, Filters[name]), name)
    else Redirect("cards", None)
  }

  /** `memorize`: resolve the subject name, then show the card with the
      given id, or else a drawn unknown card of the subject (`roll` stands
      for `ORDER BY RANDOM()`); with no card, flash that all were learned. */
  function Memorize(t: Table, name: string, cardId: Option<int>, roll: nat): (r: Response)
    ensures CategoryCode(name).None? ==> r == Redirect("cards", None)
    ensures CategoryCode(name).Some? ==> r.MemorizePage? || r == Redirect("cards", Some(AllLearned(name)))
    ensures r.MemorizePage? ==>
      && r.category == name
      && r.shown.id in t && r.shown.card == t[r.shown.id]
      && (r.shortAnswer <==> |r.shown.card.back| < 75)
    ensures CategoryCode(name).Some? && cardId.Some? ==>
      && (r.MemorizePage? <==> cardId.value in t)
      && (r.MemorizePage? ==> r.shown.id == cardId.value)
    ensures CategoryCode(name).Some? && cardId.None? ==>
      (r.MemorizePage? <==> HasUnknown(t, CategoryCode(name).value))
    ensures cardId.None? && r.MemorizePage? ==>
      r.shown.card.category == CategoryCode(name).value && !r.shown.card.known
  {
    match CategoryCode(name)
    case None => Redirect("cards", None)
    case Some(code) =>
      var card := if cardId.Some? then ById(t, cardId.value) else Draw(t, code, roll);
      if card.None? then Redirect("cards", Some(AllLearned(name)))
      else MemorizePage(card.value, name, |card.value.card.back| < 75)
  }

  /** The credential check of `login`: the username is compared first, then
      the password; either mismatch gives the same message. */
  function CheckCredentials(user: string, pass: string, username: string, password: string): (error: Option<string>)
    ensures error.None? <==> user == username && pass == password
    ensures error.Some? ==> error.value == BadCredentials
  {
    if user != username then Some(BadCredentials)
    else if pass != password then Some(BadCredentials)
    else None
  }

  /** The two hand-written name tables agree: a subject's code in the
      `memorize` chain is the code its filter selects on, and the only
      filters on a category are those of the six subjects. */
  lemma CategoriesAgree(name: string, code: int)
    ensures CategoryCode(name) == Some(code) <==> name in Filters && Filters[name] == CategoryIs(code)
  {
  }

  /** Exactly the keys outside the nine of Filters redirect, to the card list, and
      run no query. */
  lemma FilterUnknownKey(t: Table, name: string)
    ensures Filtered(t, name).Redirect? <==> name !in Filters
    ensures name !in Filters ==> Filtered(t, name) == Redirect("cards", None)
  {
  }

  /** `/cartes` and the filter `all` show the same page: every row, newest
      first. */
  lemma FilterAll(t: Table)
    ensures Filtered(t, "all") == Listing(t)
    ensures Descending(Listing(t).rows)
    ensures forall row :: row in Listing(t).rows <==> row.id in t && row.card == t[row.id]
  {
  }

  /** A subject's filter lists exactly the cards of its category, newest
      first. */
  lemma FilterCategory(t: Table, name: string, code: int)
    requires CategoryCode(name) == Some(code)
    ensures Filtered(t, name).CardsPage? && Filtered(t, name).filterName == name
    ensures Descending(Filtered(t, name).rows)
    ensures forall row :: row in Filtered(t, name).rows <==>
      row.id in t && row.card == t[row.id] && row.card.category == code
  {
  }

  /** The filters `known` and `unknown` list exactly the known and the
      unknown cards, newest first. */
  lemma FilterKnown(t: Table, name: string)
    requires name == "known" || name == "unknown"
    ensures Filtered(t, name).CardsPage? && Filtered(t, name).filterName == name
    ensures Descending(Filtered(t, name).rows)
    ensures forall row :: row in Filtered(t, name).rows <==>
      row.id in t && row.card == t[row.id] && (row.card.known <==> name == "known")
  {
  }

  /** Reviewing without an id can show any unknown card of the subject. */
  lemma MemorizeShowsAny(t: Table, name: string, id: int)
    requires CategoryCode(name).Some?
    requires id in t && t[id].category == CategoryCode(name).value && !t[id].known
    ensures exists roll: nat ::
      Memorize(t, name, None, roll) == MemorizePage(Row(id, t[id]), name, |t[id].back| < 75)
  {
    DrawReachesEvery(t, CategoryCode(name).value, id);
    var roll: nat :| Draw(t, CategoryCode(name).value, roll) == Some(Row(id, t[id]));
    assert Memorize(t, name, None, roll) == MemorizePage(Row(id, t[id]), name, |t[id].back| < 75);
  }

  /** Marking the last unknown card of a subject as known makes the next
      review of that subject the "learned them all" redirect. */
  lemma LastUnknownLearned(t: Table, name: string, id: int, roll: nat)
    requires CategoryCode(name).Some?
    requires id in t && t[id].category == CategoryCode(name).value && !t[id].known
    requires forall k :: k in t && k != id && t[k].category == CategoryCode(name).value ==> t[k].known
    ensures Memorize(MarkedKnown(t, id), name, None, roll) == Redirect("cards", Some(AllLearned(name)))
  {
  }

  /** A newly added card heads the card list, unknown, exactly once; the
      rest of the list is the list before the insert. */
  lemma AddedCardHeadsListing(t: Table, category: int, front: string, back: string)
    ensures var rows := Listing(Inserted(t, category, front, back)).rows;
      && rows == [Row(NextId(t), Card(category, front, back, false))] + Listing(t).rows
      && forall i :: 0 < i < |rows| ==> rows[i].id != NextId(t)
  {
    SelectAfterInsert(t, category, front, back, Always);
  }

  /** Marking a card known and then fetching it by id shows it known. */
  lemma MarkThenFetch(t: Table, id: int)
    requires id in t
    ensures ById(MarkedKnown(t, id), id) == Some(Row(id, t[id].(known := true)))
  {
  }

  /** Add, then edit the new card, then fetch it: the fetch reflects
      exactly the edited values. */
  lemma AddEditFetch(t: Table, category: int, front: string, back: string, edited: Card)
    ensures var id := NextId(t);
      ById(Updated(Inserted(t, category, front, back), id, edited), id) == Some(Row(id, edited))
  {
  }

  /** The application: the `cards` table and the session's `logged_in`
      flag, with one method per route. */
  class App {
    var table: Table
    var loggedIn: bool
    /** The configured USERNAME and PASSWORD. */
    const username: string
    const password: string

    constructor (username: string, password: string, table: Table)
      ensures this.username == username && this.password == password
      ensures this.table == table && !loggedIn
    {
      this.username := username;
      this.password := password;
      this.table := table;
      this.loggedIn := false;
    }

    /** `/`: into the first subject's review, or to the login form. */
    method Index() returns (r: Response)
      ensures loggedIn ==> r == Redirect("cpp", None)
      ensures !loggedIn ==> r == Redirect("login", None)
    {
      if loggedIn {
        r := Redirect("cpp", None);
      } else {
        r := Redirect("login", None);
      }
    }

    /** `/cartes`: every card, newest first. */
    method Cards() returns (r: Response)
      ensures !loggedIn ==> r == Redirect("login", None)
      ensures loggedIn ==> r == Listing(table)
    {
      if !loggedIn {
        return Redirect("login", None);
      }
      r := Listing(table);
    }

    /** `/filtrer/<filter_name>`. */
    method FilterCards(name: string) returns (r: Response)
      ensures !loggedIn ==> r == Redirect("login", None)
      ensures loggedIn ==> r == Filtered(table, name)
    {
      if !loggedIn {
        return Redirect("login", None);
      }
      r := Filtered(table, name);
    }

    /** `/ajouter`: insert one card from the form fields. */
    method AddCard(category: int, front: string, back: string) returns (r: Response)
      modifies this`table
      ensures !loggedIn ==> r == Redirect("login", None) && table == old(table)
      ensures loggedIn ==>
        r == Redirect("cards", Some(Added)) && table == Inserted(old(table), category, front, back)
    {
      if !loggedIn {
        return Redirect("login", None);
      }
      table := Inserted(table, category, front, back);
      r := Redirect("cards", Some(Added));
    }

    /** `/modifier/<card_id>`: the edit form, filled from one row, or empty
      when there is no such row. */
    method Edit(id: int) returns (r: Response)
      ensures !loggedIn ==> r == Redirect("login", None)
      ensures loggedIn ==> r == EditPage(ById(table, id))
    {
      if !loggedIn {
        return Redirect("login", None);
      }
      r := EditPage(ById(table, id));
    }

    /** `/modifier_carte`: overwrite the four fields of one row; `known`
        is true iff the form's `known` list is non-empty. */
    method EditCard(id: int, category: int, front: string, back: string, knownSelection: seq<string>)
      returns (r: Response)
      modifies this`table
      ensures !loggedIn ==> r == Redirect("login", None) && table == old(table)
      ensures loggedIn ==>
        r == Redirect("cards", Some(Saved)) && table == Updated(old(table), id, Card(category, front, back, |knownSelection| > 0))
    {
      if !loggedIn {
        return Redirect("login", None);
      }
      var known := |knownSelection| > 0;
      table := Updated(table, id, Card(category, front, back, known));
      r := Redirect("cards", Some(Saved));
    }

    /** `/supprimer/<card_id>`: delete one row, whether or not it exists. */
    method Delete(id: int) returns (r: Response)
      modifies this`table
      ensures !loggedIn ==> r == Redirect("login", None) && table == old(table)
      ensures loggedIn ==> r == Redirect("cards", Some(Removed)) && table == Deleted(old(table), id)
    {
      if !loggedIn {
        return Redirect("login", None);
      }
      table := Deleted(table, id);
      r := Redirect("cards", Some(Removed));
    }

    /** The six subject routes `/<subject>` and `/<subject>/<card_id>`. */
    method Review(route: string, cardId: Option<int>, roll: nat) returns (r: Response)
      requires route in Categories
      ensures !loggedIn ==> r == Redirect("login", None)
      ensures loggedIn ==> r == Memorize(table, route, cardId, roll)
    {
      if !loggedIn {
        return Redirect("login", None);
      }
      r := Memorize(table, route, cardId, roll);
    }

    /** `/marquer_appris/<card_id>/<card_type>`: set `known` on one row and
        go back to the endpoint named by the caller, unchecked against the
        card's category. */
    method MarkKnown(id: int, name: string) returns (r: Response)
      modifies this`table
      ensures !loggedIn ==> r == Redirect("login", None) && table == old(table)
      ensures loggedIn ==> r == Redirect(name, Some(MarkedLearned)) && table == MarkedKnown(old(table), id)
    {
      if !loggedIn {
        return Redirect("login", None);
      }
      table := MarkedKnown(table, id);
      r := Redirect(name, Some(MarkedLearned));
    }

    /** `/connexion`: a GET shows the form; a POST with the configured
        credentials sets the session flag, any other POST shows the form
        with the one error message. */
    method Login(post: bool, user: string, pass: string) returns (r: Response)
      modifies this`loggedIn
      ensures !post ==> r == LoginPage(None) && loggedIn == old(loggedIn)
      ensures post && user == username && pass == password ==>
        r == Redirect("cards", None) && loggedIn
      ensures post && !(user == username && pass == password) ==>
        r == LoginPage(Some(BadCredentials)) && loggedIn == old(loggedIn)
    {
      if post {
        var error := CheckCredentials(user, pass, username, password);
        if error.None? {
          loggedIn := true;
          return Redirect("cards", None);
        }
        return LoginPage(error);
      }
      r := LoginPage(None);
    }

    /** `/dexonnexion`: clear the session flag. */
    method Logout() returns (r: Response)
      modifies this`loggedIn
      ensures !loggedIn && r == Redirect("index", Some(LoggedOut))
    {
      loggedIn := false;
      r := Redirect("index", Some(LoggedOut));
    }
  }
}
