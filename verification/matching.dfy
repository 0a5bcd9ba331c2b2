/**
 * `find_and_store_top_matches` and `run_matching_process`: fetch the other users, rank
 * them, insert the top rows, and around that the background task that clears the
 * subject's old matches, marks it as processing and, whatever happens, marks it as
 * processed at the end.
 */
module Matching {
  import opened Wrappers
  import opened Scoring
  import opened Ranking
  import opened Store

  /** Which datastore calls raise during one run. */
  datatype Faults = Faults(
    deleteFails: bool,          // matches.delete() at line 183
    markProcessingFails: bool,  // is_processed := 0 at line 185
    fetchFails: bool,           // the listing of other users at line 131
    insertFails: bool,          // matches.insert() at line 169
    markDoneFails: bool)        // is_processed := 1 at line 198

  /** The datastore after `find_and_store_top_matches`, and whether an exception left it. */
  datatype FindOutcome = FindOutcome(after: Snapshot, raised: bool)

  /**
   * What the ranking part of `find_and_store_top_matches` (lines 133-150) hands on: None
   * when a scoring call let an exception escape, else the top matches, empty when there
   * are no other users or none scored above the threshold. It depends on the datastore
   * only through the listing of the other users.
   */
  function Ranked(users: seq<Candidate>, id: int, text: string, o: Oracle): Option<seq<Match>> {
    var others := OthersOf(users, id);
    if others == [] then Some([])
    else
      match Passing(text, others, o)
      case None => None
      case Some(all) => Some(TopMatches(all))
  }

  /** `find_and_store_top_matches` against the datastore `s`, once the ranking outcome is known. */
  function StoreTop(s: Snapshot, id: int, ranked: Option<seq<Match>>, f: Faults): FindOutcome {
    var listed := List(s, id);
    if f.fetchFails then FindOutcome(listed, false)
    else
      match ranked
      case None => FindOutcome(listed, true)
      case Some(top) =>
        if top == [] then FindOutcome(listed, false)
        else FindOutcome(Insert(listed, BuildRows(id, top), f.insertFails), false)
  }

  /** `find_and_store_top_matches(id, text)` run against the datastore `s`. */
  function FindAndStore(s: Snapshot, id: int, text: string, o: Oracle, f: Faults): FindOutcome {
    StoreTop(s, id, Ranked(s.users, id, text, o), f)
  }

  /** `find_and_store_top_matches`: the steps of lines 130-172 against the datastore object. */
  method FindAndStoreTopMatches(store: Datastore, id: int, text: string, o: Oracle, f: Faults)
    returns (raised: bool)
    modifies store
    ensures FindOutcome(store.State(), raised) == FindAndStore(old(store.State()), id, text, o, f)
  {
    var existing := store.ListOthers(id, f.fetchFails);
    if existing.None? || existing.value == [] {
      return false;
    }
    var allMatches := CollectMatches(text, existing.value, o);
    if allMatches.None? {
      return true;
    }
    var top := TopMatches(allMatches.value);
    if top == [] {
      return false;
    }
    var rows := BuildRows(id, top);
    var inserted := store.InsertMatches(rows, f.insertFails);
    return false;
  }

  /**
   * `run_matching_process` against the datastore `s`, once the ranking outcome is known:
   * the deletion, the flag-0 write and `find_and_store_top_matches` stop at the first
   * failure, and the flag-1 write is attempted in every case.
   */
  function RunWith(s: Snapshot, id: int, ranked: Option<seq<Match>>, f: Faults): Snapshot {
    var deleted := Delete(s, id, f.deleteFails);
    var afterTry :=
      if f.deleteFails then deleted
      else
        var marked := Update(deleted, id, 0, f.markProcessingFails);
        if f.markProcessingFails then marked
        else StoreTop(marked, id, ranked, f).after;
    Update(afterTry, id, 1, f.markDoneFails)
  }

  /**
   * `run_matching_process(id, text)` run against the datastore `s`. The deletion and the
   * flag-0 write do not touch the users, so the ranking is that of the original users.
   */
  function RunMatching(s: Snapshot, id: int, text: string, o: Oracle, f: Faults): Snapshot {
    RunWith(s, id, Ranked(s.users, id, text, o), f)
  }

  /**
   * `run_matching_process`: the try block (delete, flag 0, find and store), whose
   * exceptions are logged and dropped, then the `finally` write of flag 1, whose own
   * failure is logged and dropped too.
   */
  method RunMatchingProcess(store: Datastore, id: int, text: string, o: Oracle, f: Faults)
    modifies store
    ensures store.State() == RunMatching(old(store.State()), id, text, o, f)
    ensures !f.markDoneFails ==> store.flags == SetFlag(old(store.flags), id, 1)
  {
    var ok := store.DeleteMatchesOf(id, f.deleteFails);
    if ok {
      ok := store.UpdateProcessed(id, 0, f.markProcessingFails);
      if ok {
        var raised := FindAndStoreTopMatches(store, id, text, o, f);
      }
    }
    var done := store.UpdateProcessed(id, 1, f.markDoneFails);
    RunWithFlags(old(store.State()), id, Ranked(old(store.users), id, text, o), f);
  }

  // ---------------------------------------------------------------------------
  // What find_and_store_top_matches stores

  /** The rows `find_and_store_top_matches` adds to the `matches` table, given the ranking outcome. */
  function RowsOf(id: int, ranked: Option<seq<Match>>, f: Faults): seq<MatchRow> {
    if f.fetchFails || f.insertFails || ranked.None? then [] else BuildRows(id, ranked.value)
  }

  /** The rows a run of `find_and_store_top_matches` adds to the `matches` table. */
  function InsertedRows(users: seq<Candidate>, id: int, text: string, o: Oracle, f: Faults): seq<MatchRow> {
    RowsOf(id, Ranked(users, id, text, o), f)
  }

  /**
   * The ranking fails exactly when scoring some other user's description lets an
   * exception escape; otherwise it is the top of the passing matches.
   */
  lemma RankedOutcome(users: seq<Candidate>, id: int, text: string, o: Oracle)
    ensures var others := OthersOf(users, id);
      Ranked(users, id, text, o).None? <==>
        exists j :: 0 <= j < |others| && SimilarityScore(text, others[j].description, o).Escaped?
    ensures var passing := Passing(text, OthersOf(users, id), o);
      Ranked(users, id, text, o) == if passing.None? then None else Some(TopMatches(passing.value))
  {
    var others := OthersOf(users, id);
    ScoreAllFailsOnEscape(text, others, o);
    if others == [] {
      assert ScoreAll(text, others, o) == Some([]);
      assert TopMatches([]) == [];
    }
  }

  /**
   * `find_and_store_top_matches` leaves users and flags alone, only appends the inserted
   * rows to `matches`, and raises exactly when the listing worked and the ranking failed.
   */
  lemma StoreTopEffect(s: Snapshot, id: int, ranked: Option<seq<Match>>, f: Faults)
    ensures var r := StoreTop(s, id, ranked, f);
      r.after.users == s.users && r.after.flags == s.flags &&
      r.after.matches == s.matches + RowsOf(id, ranked, f)
    ensures StoreTop(s, id, ranked, f).raised <==> !f.fetchFails && ranked.None?
  {
    if !f.fetchFails && ranked.Some? && (ranked.value == [] || f.insertFails) {
      assert BuildRows(id, []) == [];
      assert s.matches + [] == s.matches;
    }
  }

  /** The same, for a run that ranks the users of `s` against `text`. */
  lemma FindAndStoreEffect(s: Snapshot, id: int, text: string, o: Oracle, f: Faults)
    ensures var r := FindAndStore(s, id, text, o, f);
      r.after.users == s.users && r.after.flags == s.flags &&
      r.after.matches == s.matches + InsertedRows(s.users, id, text, o, f)
    ensures FindAndStore(s, id, text, o, f).raised <==>
      !f.fetchFails && Passing(text, OthersOf(s.users, id), o).None?
  {
    StoreTopEffect(s, id, Ranked(s.users, id, text, o), f);
    RankedOutcome(s.users, id, text, o);
  }

  /**
   * The request an insert sends, if any: the rows of the top matches, sent exactly when the
   * listing worked and the ranking produced a non-empty top list.
   */
  function InsertSent(id: int, ranked: Option<seq<Match>>, f: Faults): seq<Request> {
    if !f.fetchFails && ranked.Some? && ranked.value != [] then [InsertReq(BuildRows(id, ranked.value))] else []
  }

  /** `find_and_store_top_matches` sends the listing and then the insert of its top rows, if any. */
  lemma StoreTopRequests(s: Snapshot, id: int, ranked: Option<seq<Match>>, f: Faults)
    ensures StoreTop(s, id, ranked, f).after.requests == s.requests + [ListReq(id)] + InsertSent(id, ranked, f)
  {
    assert s.requests + [ListReq(id)] + [] == s.requests + [ListReq(id)];
  }

  /**
   * The stored rows are the subject's top matches: at most ten, all for the subject, all
   * above 0.29, in non-increasing score order, and as many as min(10, number passing).
   */
  lemma InsertedRowsAreTopMatches(users: seq<Candidate>, id: int, text: string, o: Oracle, f: Faults)
    ensures var rows := InsertedRows(users, id, text, o, f);
      |rows| <= TOP_K &&
      (forall i :: 0 <= i < |rows| ==> rows[i].user1 == id && rows[i].score > THRESHOLD) &&
      (forall i, j :: 0 <= i < j < |rows| ==> rows[i].score >= rows[j].score)
    ensures var rows := InsertedRows(users, id, text, o, f);
      var passing := Passing(text, OthersOf(users, id), o);
      rows != [] ==> passing.Some? && |rows| == (if |passing.value| < TOP_K then |passing.value| else TOP_K)
  {
    var rows := InsertedRows(users, id, text, o, f);
    var others := OthersOf(users, id);
    RankedOutcome(users, id, text, o);
    if rows != [] {
      var top := TopMatches(Passing(text, others, o).value);
      assert rows == BuildRows(id, top);
      forall i | 0 <= i < |rows|
        ensures rows[i].score > THRESHOLD
      {
        TopMatchIsScoredCandidate(text, others, o, i);
      }
    }
  }

  /**
   * Every stored row names another user whose description scored exactly the stored score
   * against the subject's.
   */
  lemma InsertedRowsNameScoredUsers(users: seq<Candidate>, id: int, text: string, o: Oracle, f: Faults, i: nat)
    requires i < |InsertedRows(users, id, text, o, f)|
    ensures var row := InsertedRows(users, id, text, o, f)[i];
      exists u :: u in users && u.id == row.user2 && u.id != id &&
        SimilarityScore(text, u.description, o) == Score(row.score)
  {
    var others := OthersOf(users, id);
    RankedOutcome(users, id, text, o);
    var row := InsertedRows(users, id, text, o, f)[i];
    assert row == MatchRow(id, TopMatches(Passing(text, others, o).value)[i].id, TopMatches(Passing(text, others, o).value)[i].score);
    TopMatchIsScoredCandidate(text, others, o, i);
    var j :| 0 <= j < |others| && others[j].id == row.user2 &&
      SimilarityScore(text, others[j].description, o) == Score(row.score);
    assert others[j] in others;
  }

  /**
   * Nothing is stored exactly when the listing or the insert fails, a scoring call escapes,
   * or no score is above 0.29 (which includes having no other users).
   */
  lemma NothingInsertedExactly(users: seq<Candidate>, id: int, text: string, o: Oracle, f: Faults)
    ensures InsertedRows(users, id, text, o, f) == [] <==>
      f.fetchFails || f.insertFails ||
      Passing(text, OthersOf(users, id), o).None? || Passing(text, OthersOf(users, id), o).value == []
  {
    RankedOutcome(users, id, text, o);
  }

  // ---------------------------------------------------------------------------
  // What run_matching_process guarantees, whatever the ranking produced

  /**
   * The flag ends at 1 whenever the final write succeeds, on every path; when the final
   * write fails, the subject keeps 0 if the run got past marking it, else its old flag.
   * The users are never changed.
   */
  lemma RunWithFlags(s: Snapshot, id: int, ranked: Option<seq<Match>>, f: Faults)
    ensures RunWith(s, id, ranked, f).flags ==
      if !f.markDoneFails then SetFlag(s.flags, id, 1)
      else if f.deleteFails || f.markProcessingFails then s.flags
      else SetFlag(s.flags, id, 0)
    ensures RunWith(s, id, ranked, f).users == s.users
  {
    var deleted := Delete(s, id, f.deleteFails);
    if !f.deleteFails && !f.markProcessingFails {
      var marked := Update(deleted, id, 0, false);
      StoreTopEffect(marked, id, ranked, f);
      assert SetFlag(SetFlag(s.flags, id, 0), id, 1) == SetFlag(s.flags, id, 1);
    }
  }

  /** The subject's flag is 1 after every run whose final write succeeds. */
  lemma FlagEndsProcessed(s: Snapshot, id: int, text: string, o: Oracle, f: Faults)
    requires id in s.flags && !f.markDoneFails
    ensures RunMatching(s, id, text, o, f).flags == s.flags[id := 1]
  {
    RunWithFlags(s, id, Ranked(s.users, id, text, o), f);
  }

  /**
   * The exact requests a run sends: the delete; the flag-0 write unless the delete raised;
   * the listing and the insert of the top rows (if any) unless one of those two raised;
   * and in every case the flag-1 write last.
   */
  lemma RunWithSends(s: Snapshot, id: int, ranked: Option<seq<Match>>, f: Faults)
    ensures RunWith(s, id, ranked, f).requests == s.requests +
      (if f.deleteFails then [DeleteReq(id)]
       else if f.markProcessingFails then [DeleteReq(id), FlagReq(id, 0)]
       else [DeleteReq(id), FlagReq(id, 0), ListReq(id)] + InsertSent(id, ranked, f)) +
      [FlagReq(id, 1)]
  {
    var deleted := Delete(s, id, f.deleteFails);
    if !f.deleteFails {
      var marked := Update(deleted, id, 0, f.markProcessingFails);
      assert marked.requests == s.requests + [DeleteReq(id), FlagReq(id, 0)];
      if !f.markProcessingFails {
        StoreTopRequests(marked, id, ranked, f);
        assert s.requests + [DeleteReq(id), FlagReq(id, 0)] + [ListReq(id)] + InsertSent(id, ranked, f) ==
          s.requests + ([DeleteReq(id), FlagReq(id, 0), ListReq(id)] + InsertSent(id, ranked, f));
      }
    }
  }

  /**
   * The requests a run sends: the delete comes first, the flag-0 write (if sent) second,
   * an insert (if sent) only after both, and the flag-1 write is always the last.
   */
  lemma RunWithRequestOrder(s: Snapshot, id: int, ranked: Option<seq<Match>>, f: Faults)
    ensures var sent := RunWith(s, id, ranked, f).requests;
      |sent| >= |s.requests| + 2 && sent[..|s.requests|] == s.requests
    ensures var sent := RunWith(s, id, ranked, f).requests[|s.requests|..];
      sent[0] == DeleteReq(id) &&
      sent[|sent| - 1] == FlagReq(id, 1) &&
      (!f.deleteFails ==> sent[1] == FlagReq(id, 0)) &&
      forall k :: 0 <= k < |sent| && sent[k].InsertReq? ==>
        k == 3 && !f.deleteFails && !f.markProcessingFails
  {
    RunWithSends(s, id, ranked, f);
    var sent :=
      (if f.deleteFails then [DeleteReq(id)]
       else if f.markProcessingFails then [DeleteReq(id), FlagReq(id, 0)]
       else [DeleteReq(id), FlagReq(id, 0), ListReq(id)] + InsertSent(id, ranked, f)) +
      [FlagReq(id, 1)];
    var all := RunWith(s, id, ranked, f).requests;
    assert all == s.requests + sent;
    assert all[|s.requests|..] == sent;
    assert all[..|s.requests|] == s.requests;
  }

  /**
   * The subject's match set is replaced: a failed delete leaves the table untouched;
   * otherwise the subject's rows are exactly the newly inserted ones (none when the
   * flag-0 write failed) and every other subject's rows are unchanged.
   */
  lemma RunWithReplacesMatchSet(s: Snapshot, id: int, ranked: Option<seq<Match>>, f: Faults, other: int)
    requires other != id
    ensures var after := RunWith(s, id, ranked, f).matches;
      f.deleteFails ==> after == s.matches
    ensures var after := RunWith(s, id, ranked, f).matches;
      !f.deleteFails ==>
        MatchesOf(after, id) == (if f.markProcessingFails then [] else RowsOf(id, ranked, f)) &&
        MatchesOf(after, other) == MatchesOf(s.matches, other)
  {
    if !f.deleteFails {
      var w := WithoutMatchesOf(s.matches, id);
      var added := if f.markProcessingFails then [] else RowsOf(id, ranked, f);
      if !f.markProcessingFails {
        var marked := Update(Delete(s, id, false), id, 0, false);
        StoreTopEffect(marked, id, ranked, f);
      }
      assert RunWith(s, id, ranked, f).matches == w + added;
      ReplaceGivesNewSet(s.matches, id, added);
      ReplaceKeepsOthers(s.matches, id, added, other);
    }
  }

  /** The same, for a run that ranks the subject's description against the other users'. */
  lemma RunMatchingReplacesMatchSet(s: Snapshot, id: int, text: string, o: Oracle, f: Faults, other: int)
    requires other != id
    ensures var after := RunMatching(s, id, text, o, f).matches;
      !f.deleteFails && !f.markProcessingFails ==>
        MatchesOf(after, id) == InsertedRows(s.users, id, text, o, f) &&
        MatchesOf(after, other) == MatchesOf(s.matches, other)
  {
    RunWithReplacesMatchSet(s, id, Ranked(s.users, id, text, o), f, other);
  }
}
