/**
 * The fallback-event logger of `log_to_sqlite.py`: for every row whose
 * classifier list is non-empty, one event with the formatted timestamp,
 * the joined reasons, the flag 1 and a CRC-32 over the canonical text
 * `"{ts}:{reasons}:{flag}"`, appended to the `fallback_events` table.
 */
module EventLog {
  import opened Wrappers
  import opened Numerals
  import opened Utf8
  import Crc32
  import opened Readings
  import opened Classifier
  import opened Calendar
  import opened ReasonsText

  /** The `fallback_active` value the logger stores. */
  const FallbackFlag: int := 1

  /** The text the checksum covers: `f"{ts}:{reasons_str}:{fallback_flag}"`. */
  function Canonical(ts: string, reasons: string, flag: int): string
  {
    ts + ":" + reasons + ":" + IntText(flag)
  }

  /** The bytes of `s.encode()`, as the checksum reads them. */
  function Bytes(s: string): (bs: seq<bv8>)
    ensures |bs| == |Encode(s)|
  {
    Map((b: byte) => b as bv8, Encode(s))
  }

  /** `zlib.crc32(s.encode())`, an unsigned 32-bit value. */
  function Checksum(s: string): (n: nat)
    ensures n < 0x1_0000_0000
  {
    Crc32.Crc(Bytes(s)) as int
  }

  /** `format(v, '08x')` for a 32-bit value: eight lower-case hex digits, zero-padded. */
  function Hex8(v: nat): (s: string)
    requires v < 0x1_0000_0000
    ensures |s| == 8
  {
    Digits(v, 16, 8)
  }

  /** The eight characters are hex digits and read back as the value. */
  lemma Hex8ReadsBack(v: nat)
    requires v < 0x1_0000_0000
    ensures forall k :: 0 <= k < 8 ==> IsDigit(Hex8(v)[k], 16)
    ensures ParseDigits(Hex8(v), 16) == Some(v)
  {
    assert Pow(16, 8) == 0x1_0000_0000;
    DigitsInjective(v, 16, 8);
    DigitsAreDigits(v, 16, 8);
  }

  /** One row of `fallback_events`, without the `id` SQLite assigns. */
  datatype Event = Event(timestamp: string, reasons: string, fallbackActive: int, crc: string)

  /** The checksum a row's own fields call for. */
  function ExpectedCrc(e: Event): string
  {
    Hex8(Checksum(Canonical(e.timestamp, e.reasons, e.fallbackActive)))
  }

  /** Recomputing the checksum from the stored fields reproduces the stored one. */
  predicate Intact(e: Event)
  {
    e.crc == ExpectedCrc(e)
  }

  /** What the loop keeps of a flagged row: its time and its reason list. */
  datatype Entry = Entry(time: Timestamp, reasons: seq<Reason>)

  /** The event the loop builds for an entry (lines 38-44). */
  function MakeEvent(x: Entry): Event
  {
    var ts := Format(x.time);
    var text := ReasonsString(x.reasons);
    Event(ts, text, FallbackFlag, Hex8(Checksum(Canonical(ts, text, FallbackFlag))))
  }

  /** A built event carries flag 1 and a checksum that recomputes from its own fields. */
  lemma EventIntact(x: Entry)
    ensures MakeEvent(x).fallbackActive == 1 && Intact(MakeEvent(x))
  {
  }

  /** A built event reads back: its reasons decode to the list, its timestamp to the time to the second. */
  lemma EventFieldsReadBack(x: Entry)
    requires x.reasons != []
    ensures DecodeReasons(MakeEvent(x).reasons) == Some(x.reasons)
    ensures Parse(MakeEvent(x).timestamp) == Some(x.time.(microsecond := 0))
  {
    ReasonsRoundTrip(x.reasons);
    ParseFormat(x.time);
  }

  /** The canonical text of an event: `ts + ":" + reasons + ":1"`. */
  lemma CanonicalText(ts: string, reasons: string)
    ensures Canonical(ts, reasons, FallbackFlag) == ts + ":" + reasons + ":1"
  {
    assert IntText(FallbackFlag) == "1";
  }

  /** The stored checksum is eight hex digits whose value is the CRC-32 of the event's canonical text. */
  lemma EventCrcReadsBack(x: Entry)
    ensures var e := MakeEvent(x);
      |e.crc| == 8 && (forall k :: 0 <= k < 8 ==> IsDigit(e.crc[k], 16))
      && ParseDigits(e.crc, 16) == Some(Checksum(Canonical(e.timestamp, e.reasons, FallbackFlag)))
  {
    var e := MakeEvent(x);
    Hex8ReadsBack(Checksum(Canonical(e.timestamp, e.reasons, FallbackFlag)));
  }

  /** The canonical text of ASCII fields is ASCII. */
  lemma CanonicalAscii(ts: string, reasons: string)
    requires IsAscii(ts) && IsAscii(reasons)
    ensures IsAscii(Canonical(ts, reasons, FallbackFlag))
  {
    assert IntText(FallbackFlag) == "1";
    var text := Canonical(ts, reasons, FallbackFlag);
    forall i | 0 <= i < |text| ensures text[i] as int < 0x80 {
      if i < |ts| {
        assert text[i] == ts[i];
      } else if |ts| < i < |ts| + 1 + |reasons| {
        assert text[i] == reasons[i - |ts| - 1];
      }
    }
  }

  /** The canonical text is ASCII, so the checksum covers exactly one byte per character, its code. */
  lemma CanonicalBytes(x: Entry)
    ensures var text := Canonical(Format(x.time), ReasonsString(x.reasons), FallbackFlag);
      |Encode(text)| == |text| && forall k :: 0 <= k < |text| ==> Encode(text)[k] == text[k] as int
  {
    var ts, r := Format(x.time), ReasonsString(x.reasons);
    FormatLayout(x.time);
    ReasonsAscii(x.reasons);
    CanonicalAscii(ts, r);
    EncodeAscii(Canonical(ts, r, FallbackFlag));
  }

  /** `f` applied to every element, in order. */
  function Map<A, B>(f: A -> B, xs: seq<A>): (ys: seq<B>)
    ensures |ys| == |xs|
  {
    if xs == [] then [] else [f(xs[0])] + Map(f, xs[1..])
  }

  /** Element `k` of the mapped sequence is `f` of element `k`. */
  lemma {:induction false} MapAt<A, B>(f: A -> B, xs: seq<A>, k: nat)
    requires k < |xs|
    ensures Map(f, xs)[k] == f(xs[k])
  {
    if k > 0 {
      MapAt(f, xs[1..], k - 1);
    }
  }

  lemma {:induction false} MapAppend<A, B>(f: A -> B, xs: seq<A>, ys: seq<A>)
    ensures Map(f, xs + ys) == Map(f, xs) + Map(f, ys)
  {
    if xs == [] {
      assert xs + ys == ys;
    } else {
      assert (xs + ys)[0] == xs[0];
      assert (xs + ys)[1..] == xs[1..] + ys;
      MapAppend(f, xs[1..], ys);
    }
  }

  /** The events of a list of entries, in order. */
  function Events(xs: seq<Entry>): seq<Event>
  {
    seq(|xs|, k requires 0 <= k < |xs| => MakeEvent(xs[k]))
  }

  lemma EventsAppend(xs: seq<Entry>, ys: seq<Entry>)
    ensures Events(xs + ys) == Events(xs) + Events(ys)
  {
    forall k | 0 <= k < |xs + ys|
      ensures (xs + ys)[k] == if k < |xs| then xs[k] else ys[k - |xs|]
    {
    }
  }

  /** One row of the data set as the logger reads it back from the CSV file. */
  datatype Row = Row(timestamp: Stamp, temp: Reading, moisture: Reading, co2: Reading, light: Reading)

  function SampleOf(row: Row): Sample
  {
    Sample(row.temp, row.moisture, row.co2, row.light)
  }

  /** A row the classifier raises at least one reason for. */
  predicate Flagged(row: Row)
  {
    Reasons(SampleOf(row)) != []
  }

  /** The entry of a flagged row that has a time. */
  function EntryOf(row: Row): Entry
    requires row.timestamp.At?
  {
    Entry(row.timestamp.time, Reasons(SampleOf(row)))
  }

  /**
   * What the insert loop decides for `rows`: the entries of the flagged
   * rows in row order, or, when a flagged row has no time (`NaT.strftime`
   * raises), the index of the first such row, where the script stops.
   */
  function LogOutcome(rows: seq<Row>): Result<seq<Entry>, nat>
  {
    if rows == [] then Ok([]) else Step(LogOutcome(rows[..|rows| - 1]), rows[|rows| - 1], |rows| - 1)
  }

  /** One iteration of the loop: row `row` at index `i`, after the earlier rows gave `before`. */
  function Step(before: Result<seq<Entry>, nat>, row: Row, i: nat): Result<seq<Entry>, nat>
  {
    match before
    case Err(k) => Err(k)
    case Ok(xs) =>
      if !Flagged(row) then Ok(xs)
      else if row.timestamp.NaT? then Err(i)
      else Ok(xs + [EntryOf(row)])
  }

  lemma LogOutcomePrefix(rows: seq<Row>, i: nat)
    requires i < |rows|
    ensures LogOutcome(rows[..i + 1]) == Step(LogOutcome(rows[..i]), rows[i], i)
  {
    assert rows[..i + 1][..i] == rows[..i];
  }

  /** The flagged rows, in order. */
  function FlaggedRows(rows: seq<Row>): (f: seq<Row>)
    ensures |f| <= |rows|
    ensures forall k :: 0 <= k < |f| ==> Flagged(f[k])
  {
    if rows == [] then []
    else
      var last := rows[|rows| - 1];
      FlaggedRows(rows[..|rows| - 1]) + (if Flagged(last) then [last] else [])
  }

  /** The loop gets through exactly when every flagged row has a time. */
  lemma {:induction false} LogOutcomeOk(rows: seq<Row>)
    ensures LogOutcome(rows).Ok? <==> forall k :: 0 <= k < |rows| && Flagged(rows[k]) ==> rows[k].timestamp.At?
  {
    if rows != [] {
      var init := rows[..|rows| - 1];
      LogOutcomeOk(init);
      assert forall k :: 0 <= k < |init| ==> init[k] == rows[k];
    }
  }

  /** On success there is exactly one entry per flagged row, in row order, and none for any other row. */
  lemma {:induction false} LogOutcomeEntries(rows: seq<Row>)
    requires LogOutcome(rows).Ok?
    ensures var xs, f := LogOutcome(rows).value, FlaggedRows(rows);
      |xs| == |f| && forall j :: 0 <= j < |xs| ==> f[j].timestamp.At? && xs[j] == EntryOf(f[j])
  {
    if rows != [] {
      var init := rows[..|rows| - 1];
      LogOutcomeEntries(init);
    }
  }

  /** On failure the index is that of the first flagged row without a time. */
  lemma {:induction false} LogOutcomeError(rows: seq<Row>)
    requires LogOutcome(rows).Err?
    ensures var k := LogOutcome(rows).error;
      k < |rows| && Flagged(rows[k]) && rows[k].timestamp.NaT?
      && forall j :: 0 <= j < k && Flagged(rows[j]) ==> rows[j].timestamp.At?
  {
    var init := rows[..|rows| - 1];
    assert forall k :: 0 <= k < |init| ==> init[k] == rows[k];
    if LogOutcome(init).Err? {
      LogOutcomeError(init);
    } else {
      LogOutcomeOk(init);
    }
  }

  /** Every event the loop produces has flag 1, a checksum that recomputes, and reasons that read back as its entry's list. */
  lemma AllEventsIntact(rows: seq<Row>)
    requires LogOutcome(rows).Ok?
    ensures var xs := LogOutcome(rows).value; var es := Events(xs);
      forall j :: 0 <= j < |es| ==>
        es[j].fallbackActive == 1 && Intact(es[j]) && DecodeReasons(es[j].reasons) == Some(xs[j].reasons)
  {
    LogOutcomeEntries(rows);
    var xs, f := LogOutcome(rows).value, FlaggedRows(rows);
    forall j | 0 <= j < |xs|
      ensures Events(xs)[j].fallbackActive == 1 && Intact(Events(xs)[j])
        && DecodeReasons(Events(xs)[j].reasons) == Some(xs[j].reasons)
    {
      assert Flagged(f[j]);
      EventIntact(xs[j]);
      EventFieldsReadBack(xs[j]);
    }
  }

  /** The loop over `a + b` is the loop over `a` followed by the loop over `b`. */
  lemma {:induction false} LogOutcomeAppend(a: seq<Row>, b: seq<Row>)
    ensures LogOutcome(a + b) ==
      match LogOutcome(a)
      case Err(k) => Err(k)
      case Ok(xa) =>
        match LogOutcome(b)
        case Err(k) => Err(|a| + k)
        case Ok(xb) => Ok(xa + xb)
    decreases |b|
  {
    if b == [] {
      assert a + b == a;
      if LogOutcome(a).Ok? {
        assert LogOutcome(a).value + [] == LogOutcome(a).value;
      }
    } else {
      var b' := b[..|b| - 1];
      assert (a + b)[..|a + b| - 1] == a + b';
      assert (a + b)[|a + b| - 1] == b[|b| - 1];
      LogOutcomeAppend(a, b');
      if LogOutcome(a).Ok? && LogOutcome(b').Ok? {
        var xa, xb := LogOutcome(a).value, LogOutcome(b').value;
        assert forall x :: xa + xb + [x] == xa + (xb + [x]);
      }
    }
  }

  /**
   * The `fallback_events` table seen through one connection: rows already
   * committed, rows inserted since the last commit, and whether the
   * connection is open. A connection closed without a commit discards its
   * pending rows.
   */
  class EventStore {
    var committed: seq<Event>
    var pending: seq<Event>
    var isOpen: bool

    /** `sqlite3.connect` and `CREATE TABLE IF NOT EXISTS`: an existing table keeps its rows. */
    constructor Connect(existing: seq<Event>)
      ensures committed == existing && pending == [] && isOpen
    {
      committed := existing;
      pending := [];
      isOpen := true;
    }

    /** The rows a query on this connection would see. */
    function Visible(): seq<Event>
      reads this
    {
      committed + pending
    }

    /** `INSERT INTO fallback_events`: appends one row; nothing already there changes. */
    method Insert(e: Event)
      requires isOpen
      modifies this
      ensures isOpen && committed == old(committed) && pending == old(pending) + [e]
      ensures Visible() == old(Visible()) + [e]
    {
      pending := pending + [e];
    }

    /** `conn.commit()`. */
    method Commit()
      requires isOpen
      modifies this
      ensures isOpen && committed == old(committed) + old(pending) && pending == []
      ensures Visible() == old(Visible())
    {
      committed := committed + pending;
      pending := [];
    }

    /** `conn.close()`, or the end of the script: uncommitted rows are rolled back. */
    method Close()
      modifies this
      ensures !isOpen && committed == old(committed) && pending == []
    {
      pending := [];
      isOpen := false;
    }
  }

  /** An error at a prefix is the error of the whole run. */
  lemma ErrorStops(rows: seq<Row>, i: nat)
    requires i <= |rows| && LogOutcome(rows[..i]).Err?
    ensures LogOutcome(rows) == LogOutcome(rows[..i])
  {
    LogOutcomeAppend(rows[..i], rows[i..]);
    assert rows[..i] + rows[i..] == rows;
  }

  /** Builds the event of one entry and inserts it (lines 38-49). */
  method InsertEntry(store: EventStore, x: Entry)
    requires store.isOpen
    modifies store
    ensures store.isOpen && store.committed == old(store.committed)
    ensures store.pending == old(store.pending) + Events([x])
  {
    store.Insert(MakeEvent(x));
  }

  /**
   * The insert loop (lines 35-49): classifies every row in order and inserts
   * one event per flagged row; returns the index of the row whose timestamp
   * could not be formatted, if any.
   */
  method InsertFallbackEvents(store: EventStore, rows: seq<Row>) returns (failedAt: Option<nat>)
    requires store.isOpen
    modifies store
    ensures store.isOpen && store.committed == old(store.committed)
    ensures LogOutcome(rows).Ok? ==>
      failedAt == None && store.pending == old(store.pending) + Events(LogOutcome(rows).value)
    ensures LogOutcome(rows).Err? ==> failedAt == Some(LogOutcome(rows).error)
    ensures LogOutcome(rows).Err? ==>
      var k := LogOutcome(rows).error;
      k <= |rows| && LogOutcome(rows[..k]).Ok?
      && store.pending == old(store.pending) + Events(LogOutcome(rows[..k]).value)
  {
    var i := 0;
    while i < |rows|
      invariant 0 <= i <= |rows|
      invariant LogOutcome(rows[..i]).Ok?
      invariant store.isOpen && store.committed == old(store.committed)
      invariant store.pending == old(store.pending) + Events(LogOutcome(rows[..i]).value)
    {
      var row := rows[i];
      LogOutcomePrefix(rows, i);
      var reasons := GetFallbackReason(row.temp, row.moisture, row.co2, row.light);
      if reasons != [] {
        if row.timestamp.NaT? {
          ErrorStops(rows, i + 1);
          return Some(i);
        }
        EventsAppend(LogOutcome(rows[..i]).value, [Entry(row.timestamp.time, reasons)]);
        InsertEntry(store, Entry(row.timestamp.time, reasons));
      }
      i := i + 1;
    }
    assert rows[..|rows|] == rows;
    failedAt := None;
  }

  /**
   * The whole logger run on an open connection: insert, commit when every
   * row went through, close. An aborted run leaves the table as it was.
   */
  method RunLogger(store: EventStore, rows: seq<Row>) returns (failedAt: Option<nat>)
    requires store.isOpen && store.pending == []
    modifies store
    ensures !store.isOpen && store.pending == []
    ensures LogOutcome(rows).Ok? ==>
      failedAt == None && store.committed == old(store.committed) + Events(LogOutcome(rows).value)
    ensures LogOutcome(rows).Err? ==> failedAt == Some(LogOutcome(rows).error) && store.committed == old(store.committed)
  {
    failedAt := InsertFallbackEvents(store, rows);
    ghost var added := store.pending;
    if failedAt.None? {
      assert LogOutcome(rows).Ok?;
      assert added == [] + Events(LogOutcome(rows).value) == Events(LogOutcome(rows).value);
      store.Commit();
      assert store.committed == old(store.committed) + added;
    }
    store.Close();
  }
}
