/** The entities shared by the task-list server and the browser board:
    the task record, the statistics record, whitespace trimming, and the
    "every task complete" and "drop by id" operations both sides use. */
module TaskModel {

  datatype Option<T> = None | Some(value: T)

  /** One stored task. The server fills every field; the browser receives
      and keeps the same record. Timestamps are ISO-8601 strings. */
  datatype Task = Task(
    id: string,
    title: string,
    completed: bool,
    createdAt: Option<string>,
    completedAt: Option<string>)

  /** The statistics record. completionRate is the percentage of completed
      tasks before it is rounded to one decimal. */
  datatype Stats = Stats(
    total: int,
    completed: int,
    pending: int,
    completionRate: real,
    currentStreak: int)

  /** What a statistics record computed from some task list satisfies. */
  predicate WellFormedStats(s: Stats) {
    0 <= s.completed <= s.total &&
    s.completed + s.pending == s.total &&
    0 <= s.currentStreak <= s.completed &&
    0.0 <= s.completionRate <= 100.0
  }

  /** Whose notion of whitespace a trim uses: Python's `str.strip()` on the
      server, JavaScript's `String.prototype.trim()` in the browser. */
  datatype Runtime = Python | JavaScript

  /** Whitespace to both runtimes: the controls TAB to CR, the Unicode space
      separators and the line and paragraph separators. */
  predicate IsCommonSpace(c: char) {
    '\t' <= c <= '\r' || c == ' ' || c == '\U{00A0}' || c == '\U{1680}' ||
    '\U{2000}' <= c <= '\U{200A}' || c == '\U{2028}' || c == '\U{2029}' ||
    c == '\U{202F}' || c == '\U{205F}' || c == '\U{3000}'
  }

  /** Whitespace only to Python: the four separator controls and NEL. */
  predicate IsPythonOnlySpace(c: char) {
    '\U{001C}' <= c <= '\U{001F}' || c == '\U{0085}'
  }

  /** The characters a trim removes: Python's `str.isspace()`, or
      JavaScript's WhiteSpace and LineTerminator (which add the BOM). */
  predicate IsSpace(c: char, w: Runtime) {
    IsCommonSpace(c) ||
    (w == Python && IsPythonOnlySpace(c)) ||
    (w == JavaScript && c == '\U{FEFF}')
  }

  /** Every character is whitespace; checked from the front. */
  predicate IsBlank(s: string, w: Runtime)
    ensures IsBlank(s, w) <==> forall k :: 0 <= k < |s| ==> IsSpace(s[k], w)
  {
    if s == [] then true
    else
      assert forall k :: 0 < k < |s| ==> s[k] == s[1..][k - 1];
      IsSpace(s[0], w) && IsBlank(s[1..], w)
  }

  /** Drops the leading whitespace: the result is the suffix of s that
      starts at its first non-space character. */
  function TrimStart(s: string, w: Runtime): (r: string)
    ensures |r| <= |s| && r == s[|s| - |r|..]
    ensures forall k :: 0 <= k < |s| - |r| ==> IsSpace(s[k], w)
    ensures r != [] ==> !IsSpace(r[0], w)
  {
    if |s| > 0 && IsSpace(s[0], w) then TrimStart(s[1..], w) else s
  }

  /** Drops the trailing whitespace: the result is the prefix of s that
      ends at its last non-space character. */
  function TrimEnd(s: string, w: Runtime): (r: string)
    ensures |r| <= |s| && r == s[..|r|]
    ensures forall k :: |r| <= k < |s| ==> IsSpace(s[k], w)
    ensures r != [] ==> !IsSpace(r[|r| - 1], w)
  {
    if |s| > 0 && IsSpace(s[|s| - 1], w) then TrimEnd(s[..|s| - 1], w) else s
  }

  /** Whitespace removed at both ends. */
  function Strip(s: string, w: Runtime): (r: string)
    ensures r == [] <==> IsBlank(s, w)
    ensures r != [] ==> !IsSpace(r[0], w) && !IsSpace(r[|r| - 1], w)
    ensures |r| <= |s|
    ensures exists a, b :: (0 <= a <= b <= |s| && r == s[a..b] &&
      (forall k :: 0 <= k < a ==> IsSpace(s[k], w)) &&
      (forall k :: b <= k < |s| ==> IsSpace(s[k], w)))
  {
    var u := TrimStart(s, w);
    var r := TrimEnd(u, w);
    PrefixOfSuffix(s, u, r, w);
    assert !IsBlank(s, w) ==> u != [] by {
      if u == [] {
        assert forall k :: 0 <= k < |s| ==> IsSpace(s[k], w);
      }
    }
    assert u != [] ==> !IsBlank(s, w) by {
      if u != [] {
        assert s[|s| - |u|] == u[0];
      }
    }
    r
  }

  /** A prefix r of a suffix u of s, followed in u only by whitespace, is a
      slice of s followed in s only by whitespace. */
  lemma PrefixOfSuffix(s: string, u: string, r: string, w: Runtime)
    requires |u| <= |s| && u == s[|s| - |u|..]
    requires |r| <= |u| && r == u[..|r|]
    requires forall k :: |r| <= k < |u| ==> IsSpace(u[k], w)
    ensures r == s[|s| - |u|..|s| - |u| + |r|]
    ensures forall k :: |s| - |u| + |r| <= k < |s| ==> IsSpace(s[k], w)
  {
    var a := |s| - |u|;
    forall k | a + |r| <= k < |s| ensures IsSpace(s[k], w) {
      assert s[k] == u[k - a];
    }
  }

  /** Stripping a stripped string changes nothing. */
  lemma StripIdempotent(s: string, w: Runtime)
    ensures Strip(Strip(s, w), w) == Strip(s, w)
  {
    var r := Strip(s, w);
    if r != [] {
      assert TrimStart(r, w) == r;
      assert TrimEnd(r, w) == r;
    }
  }

  /** A string with no whitespace at either end is its own strip. */
  lemma StripUntrimmed(s: string, w: Runtime)
    requires s != [] && !IsSpace(s[0], w) && !IsSpace(s[|s| - 1], w)
    ensures Strip(s, w) == s
  {
  }

  /** JavaScript's `every((t) => t.completed)`, checked from the front; true
      of the empty list. */
  predicate AllComplete(ts: seq<Task>)
    ensures AllComplete(ts) <==> forall k :: 0 <= k < |ts| ==> ts[k].completed
    ensures ts == [] ==> AllComplete(ts)
  {
    if ts == [] then true
    else
      assert forall k :: 0 < k < |ts| ==> ts[k] == ts[1..][k - 1];
      ts[0].completed && AllComplete(ts[1..])
  }

  predicate NoneWithId(ts: seq<Task>, id: string) {
    forall k :: 0 <= k < |ts| ==> ts[k].id != id
  }

  /** Keeps, in order, every task whose id differs from id. Both the
      server's list comprehension and the board's `filter` do this. */
  function RemoveId(ts: seq<Task>, id: string): (r: seq<Task>)
    ensures |r| <= |ts|
    ensures forall t :: t in r <==> t in ts && t.id != id
    ensures |r| == |ts| <==> NoneWithId(ts, id)
  {
    if ts == [] then []
    else
      var rest := RemoveId(ts[1..], id);
      assert forall t :: t in ts <==> t == ts[0] || t in ts[1..];
      assert NoneWithId(ts, id) <==> ts[0].id != id && NoneWithId(ts[1..], id) by {
        if ts[0].id != id && NoneWithId(ts[1..], id) {
          forall k | 0 <= k < |ts| ensures ts[k].id != id {
            if k > 0 { assert ts[k] == ts[1..][k - 1]; }
          }
        }
      }
      (if ts[0].id == id then [] else [ts[0]]) + rest
  }

  /** Filtering distributes over concatenation: the kept tasks stay in
      their original relative order. */
  lemma {:induction false} RemoveIdConcat(a: seq<Task>, b: seq<Task>, id: string)
    ensures RemoveId(a + b, id) == RemoveId(a, id) + RemoveId(b, id)
  {
    if a == [] {
      assert a + b == b;
    } else {
      assert (a + b)[1..] == a[1..] + b;
      RemoveIdConcat(a[1..], b, id);
    }
  }

  /** A list with no matching task is kept whole. */
  lemma {:induction false} RemoveIdAbsent(ts: seq<Task>, id: string)
    requires NoneWithId(ts, id)
    ensures RemoveId(ts, id) == ts
  {
    if ts != [] {
      assert NoneWithId(ts[1..], id) by {
        forall k | 0 <= k < |ts| - 1 ensures ts[1..][k].id != id {
          assert ts[1..][k] == ts[k + 1];
        }
      }
      RemoveIdAbsent(ts[1..], id);
      assert [ts[0]] + ts[1..] == ts;
    }
  }

  /** Removing twice removes nothing more. */
  lemma RemoveIdIdempotent(ts: seq<Task>, id: string)
    ensures RemoveId(RemoveId(ts, id), id) == RemoveId(ts, id)
  {
    var r := RemoveId(ts, id);
    forall k | 0 <= k < |r| ensures r[k].id != id {
      assert r[k] in r;
    }
    RemoveIdAbsent(r, id);
  }
}
