// The bounded log buffer of philo/log_flusher.c and philo/philo.h:
// buffered_print appends an entry while there is room and silently drops it
// otherwise; the flusher prints every buffered entry in order and empties
// the buffer.
module Logging {
  import opened PhiloConsts
  import opened Utils

  /** A char[32] status buffer that ends in a NUL, so it always holds a C string. */
  type StatusBuffer = s: seq<char> | |s| == STATUS_SIZE && s[STATUS_SIZE - 1] == '\0'
    witness seq(STATUS_SIZE, _ => '\0')

  /** One t_log_entry: a timestamp, a 1-based philosopher id and a status buffer. */
  datatype LogEntry = LogEntry(timestamp: int, id: int, status: StatusBuffer)

  /** One printed line "<timestamp> <id> <text>". */
  datatype Record = Record(timestamp: int, id: int, text: seq<char>)

  /** The line the flusher prints for an entry. */
  function Printed(e: LogEntry): (r: Record)
    ensures r.timestamp == e.timestamp && r.id == e.id && |r.text| < STATUS_SIZE
  {
    Record(e.timestamp, e.id, CString(e.status))
  }

  /** The lines a run of entries prints, in index order. */
  function Records(es: seq<LogEntry>): (rs: seq<Record>)
    ensures |rs| == |es|
  {
    if es == [] then [] else Records(es[..|es| - 1]) + [Printed(es[|es| - 1])]
  }

  lemma {:induction false} RecordsAt(es: seq<LogEntry>, k: int)
    requires 0 <= k < |es|
    ensures Records(es)[k] == Printed(es[k])
  {
    if k < |es| - 1 {
      RecordsAt(es[..|es| - 1], k);
    }
  }

  /** The characters of a C string literal such as "is eating": no NUL among them. */
  predicate NoNul(s: seq<char>) {
    '\0' !in s
  }

  /** The text a status is stored as: its first 31 characters at most. */
  function StatusText(status: seq<char>): (t: seq<char>)
    ensures |t| <= STATUS_SIZE - 1
  {
    if |status| < STATUS_SIZE then status else status[..STATUS_SIZE - 1]
  }

  /**
   * The truncation rule is what ft_strncpy leaves in a status buffer: the C
   * string `status` copied with bound 31.
   */
  lemma {:induction false} StatusTextIsCopy(status: seq<char>)
    requires NoNul(status)
    ensures Terminated(status + ['\0'])
    ensures CopyOf(Some(status + ['\0']), STATUS_SIZE - 1) == StatusText(status)
  {
    var s := status + ['\0'];
    assert s[|status|] == '\0';
    PrefixCString(s, |status|);
    assert s[..|status|] == status;
  }

  /** What one buffered_print does to the buffered lines: append, or drop when full. */
  function LogAppend(c: seq<Record>, r: Record): (c': seq<Record>)
    ensures c' == c || c' == c + [r]
    ensures |c| <= LOG_BUFFER_SIZE ==> |c'| <= LOG_BUFFER_SIZE
  {
    if |c| < LOG_BUFFER_SIZE then c + [r] else c
  }

  /** A run of buffered_print calls, in order. */
  function LogAppendAll(c: seq<Record>, rs: seq<Record>): (c': seq<Record>)
    decreases |rs|
  {
    if rs == [] then c else LogAppendAll(LogAppend(c, rs[0]), rs[1..])
  }

  /** Appending one run after another is appending the two runs joined. */
  lemma {:induction false} LogAppendAllConcat(c: seq<Record>, rs: seq<Record>, ts: seq<Record>)
    ensures LogAppendAll(LogAppendAll(c, rs), ts) == LogAppendAll(c, rs + ts)
    decreases |rs|
  {
    if rs == [] {
      assert rs + ts == ts;
    } else {
      assert (rs + ts)[0] == rs[0] && (rs + ts)[1..] == rs[1..] + ts;
      LogAppendAllConcat(LogAppend(c, rs[0]), rs[1..], ts);
    }
  }

  lemma LogAppendAllOne(c: seq<Record>, r: Record)
    ensures LogAppendAll(c, [r]) == LogAppend(c, r)
  {
    assert [r][1..] == [];
  }

  lemma LogAppendAllPair(c: seq<Record>, r1: Record, r2: Record)
    ensures LogAppendAll(c, [r1, r2]) == LogAppend(LogAppend(c, r1), r2)
  {
    assert [r1, r2][1..] == [r2];
    LogAppendAllOne(LogAppend(c, r1), r2);
  }

  lemma LogAppendAllTriple(c: seq<Record>, r1: Record, r2: Record, r3: Record)
    ensures LogAppendAll(c, [r1, r2, r3]) == LogAppend(LogAppend(LogAppend(c, r1), r2), r3)
  {
    assert [r1, r2, r3][1..] == [r2, r3];
    LogAppendAllPair(LogAppend(c, r1), r2, r3);
  }

  /** The number of further lines a buffer holding `c` still accepts. */
  function Room(c: seq<Record>): (k: nat)
  {
    if |c| < LOG_BUFFER_SIZE then LOG_BUFFER_SIZE - |c| else 0
  }

  /**
   * A run of appends keeps what was buffered, adds the earliest lines that
   * fit and drops the rest, and never grows past LOG_BUFFER_SIZE.
   */
  lemma {:induction false} LogAppendAllKeepsEarliest(c: seq<Record>, rs: seq<Record>)
    requires |c| <= LOG_BUFFER_SIZE
    ensures var k := if |rs| < Room(c) then |rs| else Room(c);
      LogAppendAll(c, rs) == c + rs[..k]
    ensures |LogAppendAll(c, rs)| <= LOG_BUFFER_SIZE
    decreases |rs|
  {
    if rs != [] {
      var c1 := LogAppend(c, rs[0]);
      LogAppendAllKeepsEarliest(c1, rs[1..]);
      if |c| < LOG_BUFFER_SIZE {
        var k := if |rs| < Room(c) then |rs| else Room(c);
        assert rs[1..][..k - 1] == rs[1..k];
        assert c1 + rs[1..k] == c + rs[..k];
      }
    }
  }

  /** With enough room every line is kept; on a full buffer every line is dropped. */
  lemma LogAppendAllFitsOrDrops(c: seq<Record>, rs: seq<Record>)
    requires |c| <= LOG_BUFFER_SIZE
    ensures |c| + |rs| <= LOG_BUFFER_SIZE ==> LogAppendAll(c, rs) == c + rs
    ensures |c| == LOG_BUFFER_SIZE ==> LogAppendAll(c, rs) == c
  {
    LogAppendAllKeepsEarliest(c, rs);
    assert rs[..|rs|] == rs;
  }

  /** The flusher keeps going until the simulation has ended and the buffer is empty. */
  predicate FlusherRuns(ended: bool, count: int) {
    !ended || count > 0
  }

  class LogBuffer {
    var entries: array<LogEntry>
    var count: int

    ghost predicate Valid()
      reads this, entries
    {
      && entries.Length == LOG_BUFFER_SIZE
      && 0 <= count <= LOG_BUFFER_SIZE
    }

    /** The lines the buffer holds, oldest first. */
    function Contents(): (c: seq<Record>)
      reads this, entries
      requires Valid()
      ensures |c| == count <= LOG_BUFFER_SIZE
    {
      Records(entries[..count])
    }

    /** The buffer as part of a freshly allocated environment: no entries yet. */
    constructor ()
      ensures Valid() && fresh(entries) && count == 0
    {
      entries := new LogEntry[LOG_BUFFER_SIZE](_ => LogEntry(0, 0, seq(STATUS_SIZE, _ => '\0')));
      count := 0;
    }

    /** init_log_buffer: the buffer starts empty. */
    method Reset()
      requires entries.Length == LOG_BUFFER_SIZE
      modifies this`count
      ensures Valid() && count == 0 && Contents() == []
    {
      count := 0;
    }

    /**
     * buffered_print: with room left, the entry goes in at index `count`
     * with its status cut to 31 characters and terminated; otherwise it is
     * dropped and the buffer is unchanged.
     */
    method BufferedPrint(timestamp: int, id: int, status: seq<char>)
      requires Valid() && NoNul(status)
      modifies this`count, entries
      ensures Valid()
      ensures count == if old(count) < LOG_BUFFER_SIZE then old(count) + 1 else old(count)
      ensures forall k :: 0 <= k < old(count) ==> entries[k] == old(entries[k])
      ensures Contents() == LogAppend(old(Contents()), Record(timestamp, id, StatusText(status)))
    {
      if count < LOG_BUFFER_SIZE {
        var buf := CopyStatus(entries[count].status, status);
        var e := LogEntry(timestamp, id, buf);
        ghost var before := entries[..count];
        entries[count] := e;
        count := count + 1;
        assert entries[..count] == before + [e];
        assert entries[..count][..count - 1] == before;
      }
    }

    /**
     * One pass of the flusher's inner loop: prints entries 0 .. count-1 in
     * index order, then empties the buffer.
     */
    method Flush() returns (printed: seq<Record>)
      requires Valid()
      modifies this`count
      ensures Valid() && count == 0
      ensures printed == old(Contents())
    {
      printed := [];
      var i := 0;
      while i < count
        invariant 0 <= i <= count
        invariant printed == Records(entries[..i])
      {
        assert entries[..i + 1][..i] == entries[..i];
        printed := printed + [Printed(entries[i])];
        i := i + 1;
      }
      assert entries[..i] == entries[..count];
      count := 0;
    }
  }

  /**
   * The two status lines of buffered_print: ft_strncpy of at most 31
   * characters into the entry's buffer `was`, then a NUL in its last slot.
   */
  method CopyStatus(was: StatusBuffer, status: seq<char>) returns (buf: StatusBuffer)
    requires NoNul(status)
    ensures CString(buf) == StatusText(status)
  {
    var a := new char[STATUS_SIZE](k => if 0 <= k < |was| then was[k] else '\0');
    StatusTextIsCopy(status);
    StrNCopy(a, Some(status + ['\0']), STATUS_SIZE - 1);
    ghost var copied := a[..];
    a[STATUS_SIZE - 1] := '\0';
    assert a[..] == copied[STATUS_SIZE - 1 := '\0'];
    PrefixKept(copied, STATUS_SIZE - 1);
    buf := a[..];
  }

  /** Writing a NUL at or after the terminator keeps the C string. */
  lemma PrefixKept(s: seq<char>, k: int)
    requires Terminated(s) && CLen(s) <= k < |s|
    ensures Terminated(s[k := '\0']) && CString(s[k := '\0']) == CString(s)
  {
    PrefixCString(s[k := '\0'], CLen(s));
  }
}
