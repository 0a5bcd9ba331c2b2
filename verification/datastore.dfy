/**
 * The two Supabase tables the matching pipeline touches, as one datastore object:
 * `users` (id, description and the `is_processed` flag) and `matches`. Every call either
 * succeeds or fails as a whole; a `fails` argument decides which, so that every failure
 * path of the pipeline can be followed. The store also keeps the list of requests it was
 * sent, so the order in which the pipeline issues them can be stated.
 */
module Store {
  import opened Wrappers
  import opened Ranking

  /** A request the pipeline sends to the datastore. */
  datatype Request =
    | DeleteReq(user1: int)           // matches.delete().eq("user1_id", user1)
    | FlagReq(id: int, value: int)    // users.update({"is_processed": value}).eq("id", id)
    | ListReq(excluded: int)          // users.select("id, description").neq("id", excluded)
    | InsertReq(rows: seq<MatchRow>)  // matches.insert(rows)

  /** The datastore's contents: the users in listing order, the flags by id, the match rows. */
  datatype Snapshot = Snapshot(
    users: seq<Candidate>,
    flags: map<int, int>,
    matches: seq<MatchRow>,
    requests: seq<Request>)

  /** The users a `neq("id", id)` listing returns, in listing order. */
  function OthersOf(users: seq<Candidate>, id: int): (r: seq<Candidate>)
    ensures forall u :: u in r <==> u in users && u.id != id
    ensures |r| <= |users|
    decreases |users|
  {
    if users == [] then []
    else
      var init := users[..|users| - 1];
      var last := users[|users| - 1];
      assert users == init + [last];
      OthersOf(init, id) + (if last.id != id then [last] else [])
  }

  /** The rows whose `user1_id` is `id`, in table order. */
  function MatchesOf(rows: seq<MatchRow>, id: int): (r: seq<MatchRow>)
    ensures forall row :: row in r <==> row in rows && row.user1 == id
    decreases |rows|
  {
    if rows == [] then []
    else
      var init := rows[..|rows| - 1];
      var last := rows[|rows| - 1];
      assert rows == init + [last];
      MatchesOf(init, id) + (if last.user1 == id then [last] else [])
  }

  /** What `delete().eq("user1_id", id)` leaves: every row whose `user1_id` is not `id`. */
  function WithoutMatchesOf(rows: seq<MatchRow>, id: int): (r: seq<MatchRow>)
    ensures forall row :: row in r <==> row in rows && row.user1 != id
    decreases |rows|
  {
    if rows == [] then []
    else
      var init := rows[..|rows| - 1];
      var last := rows[|rows| - 1];
      assert rows == init + [last];
      WithoutMatchesOf(init, id) + (if last.user1 != id then [last] else [])
  }

  /** `update({"is_processed": value}).eq("id", id)`: changes the flag of user `id` only, if that user exists. */
  function SetFlag(flags: map<int, int>, id: int, value: int): (r: map<int, int>)
    ensures r.Keys == flags.Keys
    ensures id in flags ==> r[id] == value
    ensures forall k :: k in flags && k != id ==> r[k] == flags[k]
  {
    if id in flags then flags[id := value] else flags
  }

  // The effect of each request on the datastore's contents.

  function Delete(s: Snapshot, id: int, fails: bool): Snapshot {
    Snapshot(s.users, s.flags,
      if fails then s.matches else WithoutMatchesOf(s.matches, id),
      s.requests + [DeleteReq(id)])
  }

  function Update(s: Snapshot, id: int, value: int, fails: bool): Snapshot {
    Snapshot(s.users, if fails then s.flags else SetFlag(s.flags, id, value),
      s.matches, s.requests + [FlagReq(id, value)])
  }

  function List(s: Snapshot, id: int): Snapshot {
    s.(requests := s.requests + [ListReq(id)])
  }

  function Insert(s: Snapshot, rows: seq<MatchRow>, fails: bool): Snapshot {
    Snapshot(s.users, s.flags,
      if fails then s.matches else s.matches + rows,
      s.requests + [InsertReq(rows)])
  }

  lemma MatchesOfSnoc(rows: seq<MatchRow>, row: MatchRow, id: int)
    ensures MatchesOf(rows + [row], id) == MatchesOf(rows, id) + (if row.user1 == id then [row] else [])
  {
    assert (rows + [row])[..|rows|] == rows;
  }

  /**
   * Replacing a subject's match set: after deleting its rows and appending rows that all
   * belong to it, the subject's rows are exactly the new ones, in order.
   */
  lemma {:induction false} ReplaceGivesNewSet(rows: seq<MatchRow>, id: int, added: seq<MatchRow>)
    requires forall k :: 0 <= k < |added| ==> added[k].user1 == id
    ensures MatchesOf(WithoutMatchesOf(rows, id) + added, id) == added
    decreases |added|
  {
    var w := WithoutMatchesOf(rows, id);
    if added == [] {
      assert w + added == w;
      NoneLeftAfterDelete(rows, id);
    } else {
      var init := added[..|added| - 1];
      var last := added[|added| - 1];
      assert added == init + [last];
      assert w + added == (w + init) + [last];
      ReplaceGivesNewSet(rows, id, init);
      MatchesOfSnoc(w + init, last, id);
    }
  }

  lemma {:induction false} NoneLeftAfterDelete(rows: seq<MatchRow>, id: int)
    ensures MatchesOf(WithoutMatchesOf(rows, id), id) == []
    decreases |rows|
  {
    if rows != [] {
      var init := rows[..|rows| - 1];
      NoneLeftAfterDelete(init, id);
      var w := WithoutMatchesOf(init, id);
      if rows[|rows| - 1].user1 != id {
        var r := w + [rows[|rows| - 1]];
        assert r[..|r| - 1] == w;
      } else {
        assert w + [] == w;
      }
    }
  }

  /** Replacing one subject's match set leaves every other subject's rows as they were. */
  lemma {:induction false} ReplaceKeepsOthers(rows: seq<MatchRow>, id: int, added: seq<MatchRow>, other: int)
    requires forall k :: 0 <= k < |added| ==> added[k].user1 == id
    requires other != id
    ensures MatchesOf(WithoutMatchesOf(rows, id) + added, other) == MatchesOf(rows, other)
    decreases |added|
  {
    var w := WithoutMatchesOf(rows, id);
    if added == [] {
      assert w + added == w;
      DeleteKeepsOthers(rows, id, other);
    } else {
      var init := added[..|added| - 1];
      var last := added[|added| - 1];
      assert added == init + [last];
      assert w + added == (w + init) + [last];
      ReplaceKeepsOthers(rows, id, init, other);
      MatchesOfSnoc(w + init, last, other);
      assert MatchesOf(w + init, other) + [] == MatchesOf(w + init, other);
    }
  }

  lemma {:induction false} DeleteKeepsOthers(rows: seq<MatchRow>, id: int, other: int)
    requires other != id
    ensures MatchesOf(WithoutMatchesOf(rows, id), other) == MatchesOf(rows, other)
    decreases |rows|
  {
    if rows != [] {
      var init := rows[..|rows| - 1];
      var last := rows[|rows| - 1];
      DeleteKeepsOthers(init, id, other);
      var w := WithoutMatchesOf(init, id);
      if last.user1 != id {
        var r := w + [last];
        assert r[..|r| - 1] == w;
      } else {
        assert w + [] == w;
      }
    }
  }

  /** The datastore the pipeline talks to. */
  class Datastore {
    var users: seq<Candidate>
    var flags: map<int, int>
    var matches: seq<MatchRow>
    var requests: seq<Request>

    function State(): Snapshot
      reads this
    {
      Snapshot(users, flags, matches, requests)
    }

    constructor (users: seq<Candidate>, flags: map<int, int>, matches: seq<MatchRow>)
      ensures State() == Snapshot(users, flags, matches, [])
    {
      this.users := users;
      this.flags := flags;
      this.matches := matches;
      this.requests := [];
    }

    /** `matches.delete().eq("user1_id", id).execute()`; `ok` is false where it raises. */
    method DeleteMatchesOf(id: int, fails: bool) returns (ok: bool)
      modifies this
      ensures ok == !fails
      ensures State() == Delete(old(State()), id, fails)
    {
      requests := requests + [DeleteReq(id)];
      if !fails {
        matches := WithoutMatchesOf(matches, id);
      }
      ok := !fails;
    }

    /** `users.update({"is_processed": value}).eq("id", id).execute()`; `ok` is false where it raises. */
    method UpdateProcessed(id: int, value: int, fails: bool) returns (ok: bool)
      modifies this
      ensures ok == !fails
      ensures State() == Update(old(State()), id, value, fails)
    {
      requests := requests + [FlagReq(id, value)];
      if !fails {
        flags := SetFlag(flags, id, value);
      }
      ok := !fails;
    }

    /** `users.select("id, description").neq("id", id).execute().data`; None where it raises. */
    method ListOthers(id: int, fails: bool) returns (r: Option<seq<Candidate>>)
      modifies this
      ensures r == if fails then None else Some(OthersOf(old(users), id))
      ensures State() == List(old(State()), id)
    {
      requests := requests + [ListReq(id)];
      r := if fails then None else Some(OthersOf(users, id));
    }

    /** `matches.insert(rows).execute()`, one batch statement; `ok` is false where it raises. */
    method InsertMatches(rows: seq<MatchRow>, fails: bool) returns (ok: bool)
      modifies this
      ensures ok == !fails
      ensures State() == Insert(old(State()), rows, fails)
    {
      requests := requests + [InsertReq(rows)];
      if !fails {
        matches := matches + rows;
      }
      ok := !fails;
    }
  }
}
