/**
 * The daily queue and the post history of db.py, over an abstract store: the
 * `daily_queue` table is a map keyed by (run_date, slot_index) — the table's
 * UNIQUE constraint — and `post_history` is an append-only sequence. Dates are
 * day numbers and instants whole seconds; each operation is a function from
 * the store before to the store after (and its answer).
 */
module QueueStore {
  import opened Wrappers
  import opened Table

  const Pending: string := "pending"
  const Posting: string := "posting"

  /** The unique key of a `daily_queue` row. */
  datatype SlotKey = SlotKey(runDate: int, slotIndex: int)

  /** The other columns of a `daily_queue` row. */
  datatype QueueItem = QueueItem(url: string, plannedAt: Option<int>, status: string)

  /** One `post_history` record. */
  datatype HistoryRecord = HistoryRecord(url: string, postedAt: int)

  datatype Store = Store(queue: map<SlotKey, QueueItem>, history: seq<HistoryRecord>)

  /** A fresh database: `_ensure` creates both tables empty. */
  const Empty: Store := Store(map[], [])

  // ---------------------------------------------------------------------------
  // History
  // ---------------------------------------------------------------------------

  /** `add_history`: append one record. */
  function AddHistory(s: Store, url: string, when: int): (s': Store)
    ensures |s'.history| == |s.history| + 1
    ensures s'.history[..|s.history|] == s.history
    ensures s'.history[|s.history|] == HistoryRecord(url, when)
    ensures s'.queue == s.queue
  {
    s.(history := s.history + [HistoryRecord(url, when)])
  }

  /** Some record for `url` is at or after `since`. */
  predicate PostedSince(history: seq<HistoryRecord>, url: string, since: int) {
    exists i | 0 <= i < |history| :: history[i].url == url && history[i].postedAt >= since
  }

  /**
   * `posted_in_last_days`: the non-empty URLs among `urls` that were posted at
   * or after `now - days`. The clock is the parameter `now`.
   */
  method PostedInLastDays(s: Store, urls: seq<string>, days: int, now: int) returns (r: set<string>)
    ensures forall u :: u in r <==> u in urls && u != "" && PostedSince(s.history, u, now - days * Day)
    ensures (forall k :: 0 <= k < |urls| ==> urls[k] == "") ==> r == {}
  {
    var wanted := set k | 0 <= k < |urls| && urls[k] != "" :: urls[k];
    if wanted == {} {
      return {};
    }
    var since := now - days * Day;
    r := {};
    var i := 0;
    while i < |s.history|
      invariant 0 <= i <= |s.history|
      invariant forall u :: u in r <==> u in wanted && PostedSince(s.history[..i], u, since)
    {
      var rec := s.history[i];
      if rec.url in wanted && rec.postedAt >= since {
        r := r + {rec.url};
      }
      assert s.history[..i + 1] == s.history[..i] + [rec];
      i := i + 1;
    }
    assert s.history[..i] == s.history;
  }

  // ---------------------------------------------------------------------------
  // Daily queue
  // ---------------------------------------------------------------------------

  /**
   * `upsert_queue_item`: a new key is inserted as pending; an existing key gets
   * the new URL and planned instant but keeps its status.
   */
  function Upsert(s: Store, key: SlotKey, url: string, plannedAt: Option<int>): (s': Store)
    ensures s'.queue.Keys == s.queue.Keys + {key}
    ensures s'.queue[key].url == url && s'.queue[key].plannedAt == plannedAt
    ensures key !in s.queue ==> s'.queue[key].status == Pending
    ensures key in s.queue ==> s'.queue[key].status == s.queue[key].status
    ensures forall k :: k in s.queue && k != key ==> s'.queue[k] == s.queue[k]
    ensures s'.history == s.history
  {
    var status := if key in s.queue then s.queue[key].status else Pending;
    s.(queue := s.queue[key := QueueItem(url, plannedAt, status)])
  }

  /**
   * `claim_queue_item`: a pending row becomes posting and its URL is returned;
   * anything else — no row, or a row in another status — returns `None` and
   * changes nothing.
   */
  function Claim(s: Store, key: SlotKey): (res: (Store, Option<string>))
    ensures key in s.queue && s.queue[key].status == Pending ==>
              && res.1 == Some(s.queue[key].url)
              && res.0.queue == s.queue[key := s.queue[key].(status := Posting)]
    ensures !(key in s.queue && s.queue[key].status == Pending) ==> res.1.None? && res.0 == s
    ensures res.0.history == s.history && res.0.queue.Keys == s.queue.Keys
  {
    if key in s.queue && s.queue[key].status == Pending then
      (s.(queue := s.queue[key := s.queue[key].(status := Posting)]), Some(s.queue[key].url))
    else (s, None)
  }

  /** `finish_queue_item`: set the status of an existing row; an absent key is a no-op. */
  function Finish(s: Store, key: SlotKey, status: string): (s': Store)
    ensures key in s.queue ==> s'.queue == s.queue[key := s.queue[key].(status := status)]
    ensures key !in s.queue ==> s' == s
    ensures s'.history == s.history
  {
    if key in s.queue then s.(queue := s.queue[key := s.queue[key].(status := status)]) else s
  }

  /** Two claims of the same slot in a row: at most one of them gets a URL. */
  lemma AtMostOneClaim(s: Store, key: SlotKey)
    ensures var (s1, first) := Claim(s, key);
            var (_, second) := Claim(s1, key);
            !(first.Some? && second.Some?)
  {
  }

  /** Finishing twice with the same status is the same as finishing once. */
  lemma FinishIdempotent(s: Store, key: SlotKey, status: string)
    ensures Finish(Finish(s, key, status), key, status) == Finish(s, key, status)
  {
  }

  /** A freshly planned (or still pending) slot is claimed with the URL just planned. */
  lemma UpsertThenClaim(s: Store, key: SlotKey, url: string, plannedAt: Option<int>)
    requires key !in s.queue || s.queue[key].status == Pending
    ensures Claim(Upsert(s, key, url, plannedAt), key).1 == Some(url)
    ensures Claim(Upsert(s, key, url, plannedAt), key).0.queue[key].status == Posting
  {
  }

  /** Re-planning a slot that was already claimed does not make it claimable again. */
  lemma ReplanKeepsClaim(s: Store, key: SlotKey, url: string, plannedAt: Option<int>)
    requires key in s.queue && s.queue[key].status != Pending
    ensures Claim(Upsert(s, key, url, plannedAt), key).1.None?
  {
  }

  /** A set of integers with some element has a least element. */
  lemma {:induction false} HasLeast(xs: set<int>)
    requires exists y :: y in xs
    ensures exists m :: m in xs && forall x :: x in xs ==> m <= x
    decreases |xs|
  {
    var y :| y in xs;
    var rest := xs - {y};
    if exists z :: z in rest {
      HasLeast(rest);
      var m :| m in rest && forall x :: x in rest ==> m <= x;
      var least := if y < m then y else m;
      forall x | x in xs ensures least <= x {
        if x != y {
          assert x in rest;
        }
      }
      assert least in xs;
    } else {
      forall x | x in xs ensures y <= x {
        assert x !in rest;
      }
    }
  }

  /** The least element of a set with some element. */
  method PickLeast(xs: set<int>) returns (m: int)
    requires exists y :: y in xs
    ensures m in xs && forall x :: x in xs ==> m <= x
  {
    HasLeast(xs);
    m :| m in xs && forall x :: x in xs ==> m <= x;
  }

  /** One row of `get_queue_for_date`: (slot_index, youtube_url, status). */
  datatype Listed = Listed(slotIndex: int, url: string, status: string)

  /**
   * `get_queue_for_date`: exactly the rows of `date`, in strictly increasing
   * slot order, each with its URL and status.
   */
  method ListForDate(s: Store, date: int) returns (rows: seq<Listed>)
    ensures forall k, l :: 0 <= k < l < |rows| ==> rows[k].slotIndex < rows[l].slotIndex
    ensures forall k :: 0 <= k < |rows| ==> Describes(s, date, rows[k])
    ensures forall key :: key in s.queue && key.runDate == date ==>
              exists k :: 0 <= k < |rows| && rows[k].slotIndex == key.slotIndex
  {
    var slots := SlotsOf(s, date);
    var order := Ascending(slots);
    rows := seq(|order|, k requires 0 <= k < |order| =>
                  Listed(order[k], s.queue[SlotKey(date, order[k])].url, s.queue[SlotKey(date, order[k])].status));
    forall key | key in s.queue && key.runDate == date
      ensures exists k :: 0 <= k < |rows| && rows[k].slotIndex == key.slotIndex
    {
      var k :| 0 <= k < |order| && order[k] == key.slotIndex;
      assert rows[k].slotIndex == key.slotIndex;
    }
  }

  /** The elements of a finite set of integers, in strictly increasing order. */
  method Ascending(xs: set<int>) returns (order: seq<int>)
    ensures forall k, l :: 0 <= k < l < |order| ==> order[k] < order[l]
    ensures forall x :: x in xs <==> exists k :: 0 <= k < |order| && order[k] == x
  {
    var left := xs;
    order := [];
    while exists x | x in left :: true
      invariant forall x :: x in xs <==> x in left || exists k :: 0 <= k < |order| && order[k] == x
      invariant forall x :: x in left ==> x in xs
      invariant forall k, l :: 0 <= k < l < |order| ==> order[k] < order[l]
      invariant forall k, x :: 0 <= k < |order| && x in left ==> order[k] < x
      decreases |left|
    {
      var m := PickLeast(left);
      ghost var before := order;
      order := order + [m];
      RemoveShrinks(left, m);
      left := left - {m};
      assert order[|before|] == m;
      assert forall k :: 0 <= k < |before| ==> order[k] == before[k];
    }
  }

  /** The slot indices planned for `date`. */
  method SlotsOf(s: Store, date: int) returns (xs: set<int>)
    ensures forall key :: key in s.queue && key.runDate == date ==> key.slotIndex in xs
    ensures forall x :: x in xs ==> SlotKey(date, x) in s.queue
  {
    xs := set k | k in s.queue && k.runDate == date :: k.slotIndex;
  }

  lemma RemoveShrinks(xs: set<int>, m: int)
    requires m in xs
    ensures |xs - {m}| < |xs|
  {
  }

  /** `row` is the listing of the existing slot `(date, row.slotIndex)`. */
  predicate Describes(s: Store, date: int, row: Listed) {
    var key := SlotKey(date, row.slotIndex);
    key in s.queue && row.url == s.queue[key].url && row.status == s.queue[key].status
  }

}
