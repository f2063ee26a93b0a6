/** How the board's optimistic changes relate to what the server does with
    the same request. */
module EndToEnd {
  import opened TaskModel
  import opened Backend
  import opened Board

  predicate UniqueIds(ts: seq<Task>) {
    forall j, k :: 0 <= j < k < |ts| ==> ts[j].id != ts[k].id
  }

  /** A title that passes the board's blank check, and has no character
      that only Python counts as whitespace, is stored by the server as a
      non-empty title without surrounding whitespace. */
  lemma PostedTitleStored(title: string, id: string, now: string)
    requires !IsBlank(title, JavaScript)
    requires forall k :: 0 <= k < |title| ==> !IsPythonOnlySpace(title[k])
    ensures var t := NewTask(id, title, now).title;
      t != [] && !IsSpace(t[0], Python) && !IsSpace(t[|t| - 1], Python)
  {
    var k :| 0 <= k < |title| && !IsSpace(title[k], JavaScript);
    assert !IsSpace(title[k], Python);
  }

  /** Without the second condition the server may store an empty title:
      the title U+001C is not blank to the board, so it is posted, but
      Python strips it to nothing. */
  lemma SeparatorTitleStoredEmpty(id: string, now: string)
    ensures !IsBlank("\U{001C}", JavaScript)
    ensures NewTask(id, "\U{001C}", now).title == []
  {
    assert !IsSpace("\U{001C}"[0], JavaScript);
    assert IsSpace("\U{001C}"[0], Python);
  }

  /** With unique ids, the board's optimistic toggle gives every task the
      completion the server stores after update_task on the same id, so the
      refetched list is all complete exactly when the optimistic one is. */
  lemma ToggleMatchesServer(ts: seq<Task>, id: string, value: bool, now: string)
    requires UniqueIds(ts) && !NoneWithId(ts, id)
    ensures var i := FirstIndexOf(ts, id).value;
      var server := ts[i := SetCompleted(ts[i], value, now)];
      var board := ToggleMap(ts, id, value);
      (forall k :: 0 <= k < |ts| ==> board[k].completed == server[k].completed) &&
      (AllComplete(board) <==> AllComplete(server))
  {
  }

  /** With the id absent, the server answers 404 and the optimistic toggle
      and delete leave the board as it was, so the rollback restores what
      was already there. */
  lemma AbsentIdNoChange(ts: seq<Task>, id: string, value: bool)
    requires NoneWithId(ts, id)
    ensures FirstIndexOf(ts, id).None?
    ensures ToggleMap(ts, id, value) == ts
    ensures RemoveId(ts, id) == ts
  {
    ToggleAbsent(ts, id, value);
    RemoveIdAbsent(ts, id);
  }
}
