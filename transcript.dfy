/** The conversation transcript (ConversationMemory over the
    `conversation_history` table), kept as an in-memory sequence of rows in
    insertion order. Whether the database can be reached is a per-call flag:
    the source opens a fresh connection on every call. */
module Transcript {
  import opened Common

  /** One row of `conversation_history`; the auto-increment id and the
      `created_at` default column are not modelled. */
  datatype Turn = Turn(userId: string, sessionId: string, userMessage: string,
                       assistantResponse: string, timestamp: int)

  /** What `get_conversation_history` yields per row: `(user_message, assistant_response)`. */
  type Exchange = (string, string)

  /** The default `limit` of `get_conversation_history`. */
  const DefaultHistoryLimit: int := 5

  /** Rows in insertion order carry strictly increasing timestamps. */
  ghost predicate Chronological(rows: seq<Turn>)
  {
    forall i, j :: 0 <= i < j < |rows| ==> rows[i].timestamp < rows[j].timestamp
  }

  /** Timestamps strictly decrease along the sequence. */
  ghost predicate NewestFirst(ts: seq<Turn>)
  {
    forall i, j :: 0 <= i < j < |ts| ==> ts[i].timestamp > ts[j].timestamp
  }

  /** A clock reading later than every stored timestamp. */
  predicate ClockAfter(rows: seq<Turn>, now: int)
  {
    rows == [] || rows[|rows| - 1].timestamp < now
  }

  predicate Belongs(t: Turn, userId: string, sessionId: string)
  {
    t.userId == userId && t.sessionId == sessionId
  }

  /** `WHERE user_id = ? AND session_id = ?`, in table order. */
  function Matching(rows: seq<Turn>, userId: string, sessionId: string): (r: seq<Turn>)
    ensures |r| <= |rows|
    ensures forall t :: t in r ==> t in rows && Belongs(t, userId, sessionId)
    ensures forall t :: t in rows && Belongs(t, userId, sessionId) ==> t in r
  {
    if rows == [] then []
    else (if Belongs(rows[0], userId, sessionId) then [rows[0]] else [])
         + Matching(rows[1..], userId, sessionId)
  }

  function Reverse<T>(xs: seq<T>): (r: seq<T>)
    ensures |r| == |xs|
    ensures forall i :: 0 <= i < |xs| ==> r[i] == xs[|xs| - 1 - i]
  {
    if xs == [] then [] else Reverse(xs[1..]) + [xs[0]]
  }

  /** `LIMIT ?` as SQLite reads it: a negative limit means no limit. */
  function Take<T>(xs: seq<T>, limit: int): (r: seq<T>)
    ensures 0 <= limit ==> |r| == if limit < |xs| then limit else |xs|
    ensures limit < 0 ==> r == xs
    ensures r <= xs
  {
    if 0 <= limit < |xs| then xs[..limit] else xs
  }

  /** The rows `get_conversation_history` selects: the session's turns,
      newest first (`ORDER BY timestamp DESC` under a strictly increasing
      clock), at most `limit` of them. */
  function Recent(rows: seq<Turn>, userId: string, sessionId: string, limit: int): (r: seq<Turn>)
    ensures var n := |Matching(rows, userId, sessionId)|;
            |r| == if 0 <= limit < n then limit else n
  {
    Take(Reverse(Matching(rows, userId, sessionId)), limit)
  }

  /** `SELECT user_message, assistant_response`. */
  function Exchanges(ts: seq<Turn>): (r: seq<Exchange>)
    ensures |r| == |ts|
    ensures forall i :: 0 <= i < |ts| ==> r[i] == (ts[i].userMessage, ts[i].assistantResponse)
  {
    seq(|ts|, i requires 0 <= i < |ts| => (ts[i].userMessage, ts[i].assistantResponse))
  }

  // ---------------------------------------------------------------------

  lemma {:induction false} MatchingConcat(xs: seq<Turn>, ys: seq<Turn>, userId: string, sessionId: string)
    ensures Matching(xs + ys, userId, sessionId) == Matching(xs, userId, sessionId) + Matching(ys, userId, sessionId)
  {
    if xs == [] {
      assert xs + ys == ys;
    } else {
      var h := if Belongs(xs[0], userId, sessionId) then [xs[0]] else [];
      MatchingConcat(xs[1..], ys, userId, sessionId);
      assert (xs + ys)[0] == xs[0] && (xs + ys)[1..] == xs[1..] + ys;
      assert Matching(xs + ys, userId, sessionId) == h + Matching(xs[1..] + ys, userId, sessionId);
      assert Matching(xs, userId, sessionId) == h + Matching(xs[1..], userId, sessionId);
      ConcatAssoc(h, Matching(xs[1..], userId, sessionId), Matching(ys, userId, sessionId));
    }
  }

  lemma ReverseSnoc<T>(xs: seq<T>, y: T)
    ensures Reverse(xs + [y]) == [y] + Reverse(xs)
  {
  }

  lemma ReverseConsSnoc<T>(x: T, ys: seq<T>)
    ensures Reverse([x] + ys) == Reverse(ys) + [x]
  {
    assert ([x] + ys)[1..] == ys;
  }

  lemma {:induction false} MatchingChronological(rows: seq<Turn>, userId: string, sessionId: string)
    requires Chronological(rows)
    ensures Chronological(Matching(rows, userId, sessionId))
  {
    if rows != [] {
      var rest := rows[1..];
      assert Chronological(rest);
      MatchingChronological(rest, userId, sessionId);
      var m := Matching(rest, userId, sessionId);
      forall t | t in m ensures rows[0].timestamp < t.timestamp {
        var k :| 0 <= k < |rest| && rest[k] == t;
        assert rows[k + 1] == t;
      }
    }
  }

  /** Only the session's own turns are returned: never another session's,
      even for the same user. */
  lemma RecentBelongs(rows: seq<Turn>, userId: string, sessionId: string, limit: int)
    ensures forall t :: t in Recent(rows, userId, sessionId, limit) ==> t in rows && Belongs(t, userId, sessionId)
  {
    var m := Matching(rows, userId, sessionId);
    var rm := Reverse(m);
    var r := Take(rm, limit);
    assert r <= rm;
    forall t | t in r ensures t in m {
      var k :| 0 <= k < |r| && r[k] == t;
      assert rm[k] == m[|m| - 1 - k];
    }
  }

  /** Under a strictly increasing clock the rows come newest first. */
  lemma RecentNewestFirst(rows: seq<Turn>, userId: string, sessionId: string, limit: int)
    requires Chronological(rows)
    ensures NewestFirst(Recent(rows, userId, sessionId, limit))
  {
    MatchingChronological(rows, userId, sessionId);
    var m := Matching(rows, userId, sessionId);
    var r := Recent(rows, userId, sessionId, limit);
    forall i, j | 0 <= i < j < |r| ensures r[i].timestamp > r[j].timestamp {
      assert r[i] == m[|m| - 1 - i] && r[j] == m[|m| - 1 - j];
    }
  }

  /** The first `n` of a reversed sequence are its last `n`, back to front. */
  lemma TakeReverse<T>(xs: seq<T>, limit: int)
    ensures var r := Take(Reverse(xs), limit);
            |r| <= |xs| && r == Reverse(xs[|xs| - |r|..])
            && forall k :: 0 <= k < |r| ==> r[k] == xs[|xs| - 1 - k]
  {
    var rx := Reverse(xs);
    var r := Take(rx, limit);
    var a := |xs| - |r|;
    var tail := Reverse(xs[a..]);
    assert r <= rx;
    forall k | 0 <= k < |r| ensures r[k] == xs[|xs| - 1 - k] == tail[k] {
      assert r[k] == rx[k];
      assert tail[k] == xs[a..][|xs| - a - 1 - k];
    }
  }

  /** The limit keeps the session's newest turns: what is returned is the
      last `|r|` matching rows, newest first, and every matching row left
      out is older than every row returned. */
  lemma RecentKeepsNewest(rows: seq<Turn>, userId: string, sessionId: string, limit: int)
    requires Chronological(rows)
    ensures var m := Matching(rows, userId, sessionId);
            var r := Recent(rows, userId, sessionId, limit);
            r == Reverse(m[|m| - |r|..])
    ensures var m := Matching(rows, userId, sessionId);
            var r := Recent(rows, userId, sessionId, limit);
            forall j, k :: 0 <= j < |m| - |r| && 0 <= k < |r| ==> m[j].timestamp < r[k].timestamp
  {
    MatchingChronological(rows, userId, sessionId);
    var m := Matching(rows, userId, sessionId);
    TakeReverse(m, limit);
    var r := Take(Reverse(m), limit);
    forall j, k | 0 <= j < |m| - |r| && 0 <= k < |r| ensures m[j].timestamp < r[k].timestamp {
      assert r[k] == m[|m| - 1 - k];
    }
  }

  /** Read back to front, a newest-first sequence is in insertion order. */
  lemma ReverseNewestFirst(ts: seq<Turn>)
    requires NewestFirst(ts)
    ensures Chronological(Reverse(ts))
  {
    var r := Reverse(ts);
    forall i, j | 0 <= i < j < |r| ensures r[i].timestamp < r[j].timestamp {
      assert r[i] == ts[|ts| - 1 - i] && r[j] == ts[|ts| - 1 - j];
    }
  }

  /** A turn just stored is the first one read back for its session. */
  lemma StoredTurnComesFirst(rows: seq<Turn>, t: Turn, limit: int)
    requires limit != 0
    ensures var r := Recent(rows + [t], t.userId, t.sessionId, limit); |r| > 0 && r[0] == t
  {
    MatchingConcat(rows, [t], t.userId, t.sessionId);
    assert Matching([t], t.userId, t.sessionId) == [t];
    ReverseSnoc(Matching(rows, t.userId, t.sessionId), t);
  }

  /** Storing a turn of another session (or user) leaves a session's history as it was. */
  lemma OtherSessionUnaffected(rows: seq<Turn>, t: Turn, userId: string, sessionId: string, limit: int)
    requires !Belongs(t, userId, sessionId)
    ensures Recent(rows + [t], userId, sessionId, limit) == Recent(rows, userId, sessionId, limit)
  {
    MatchingConcat(rows, [t], userId, sessionId);
    assert Matching([t], userId, sessionId) == [];
    assert Matching(rows, userId, sessionId) + [] == Matching(rows, userId, sessionId);
  }

  /** One step of the backwards scan: the row before `rows[i..]`. */
  lemma RecentStep(rows: seq<Turn>, i: nat, userId: string, sessionId: string, limit: int)
    requires 0 < i <= |rows|
    ensures var before := Take(Reverse(Matching(rows[i..], userId, sessionId)), limit);
            var after := Take(Reverse(Matching(rows[i - 1..], userId, sessionId)), limit);
            after == if Belongs(rows[i - 1], userId, sessionId) && (limit < 0 || |before| < limit)
                     then before + [rows[i - 1]] else before
  {
    var t := rows[i - 1];
    var m := Matching(rows[i..], userId, sessionId);
    assert rows[i - 1..] == [t] + rows[i..];
    MatchingConcat([t], rows[i..], userId, sessionId);
    if Belongs(t, userId, sessionId) {
      assert Matching([t], userId, sessionId) == [t];
      ReverseConsSnoc(t, m);
    } else {
      assert Matching([t], userId, sessionId) == [];
      assert [] + m == m;
    }
  }

  // ---------------------------------------------------------------------

  /** ConversationMemory: the table and the two operations on it. */
  class ConversationMemory {
    var rows: seq<Turn>

    ghost predicate Valid()
      reads this
    {
      Chronological(rows)
    }

    /** `ConversationMemory()`: the constructor does not touch the table, so
        the memory starts with whatever rows `education_store.db` already
        holds. */
    constructor (existing: seq<Turn>)
      requires Chronological(existing)
      ensures Valid() && rows == existing
    {
      rows := existing;
    }

    /** `store_conversation`: one row appended with the current time; when the
        database cannot be reached nothing changes and the call still
        returns normally. */
    method StoreConversation(userId: string, sessionId: string, userMessage: string,
                             assistantResponse: string, now: int, reachable: bool)
      requires Valid() && ClockAfter(rows, now)
      modifies this
      ensures Valid()
      ensures rows == if reachable then old(rows) + [Turn(userId, sessionId, userMessage, assistantResponse, now)]
                      else old(rows)
    {
      if !reachable {
        return;
      }
      rows := rows + [Turn(userId, sessionId, userMessage, assistantResponse, now)];
    }

    /** `get_conversation_history`: the session's exchanges, newest first, at
        most `limit`; the empty list when the database cannot be reached. */
    method GetConversationHistory(userId: string, sessionId: string, limit: int, reachable: bool)
      returns (history: seq<Exchange>)
      ensures history == if reachable then Exchanges(Recent(rows, userId, sessionId, limit)) else []
    {
      if !reachable {
        return [];
      }
      var found: seq<Turn> := [];
      var i := |rows|;
      assert rows[i..] == [];
      while i > 0
        invariant 0 <= i <= |rows|
        invariant found == Take(Reverse(Matching(rows[i..], userId, sessionId)), limit)
      {
        RecentStep(rows, i, userId, sessionId, limit);
        var t := rows[i - 1];
        if Belongs(t, userId, sessionId) && (limit < 0 || |found| < limit) {
          found := found + [t];
        }
        i := i - 1;
      }
      assert rows[0..] == rows;
      history := Exchanges(found);
    }
  }
}
