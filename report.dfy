/**
 * The `nmcli --mode multiline --terse dev wifi list` report and how
 * `run_scan` folds it into network records and orders them by signal.
 */
module Report {
  import opened Wrappers
  import opened Text

  /** One access point, as `run_scan` records it. */
  datatype Network = Network(inUse: bool, ssid: string, bssid: string, security: string, signal: U8)

  /** The accumulator's value before the first line and after each flush. */
  const Blank := Network(false, "", "", "", 0)

  const InUseKey := "IN-USE:"
  const SsidKey := "SSID:"
  const BssidKey := "BSSID:"
  const SecurityKey := "SECURITY:"
  const SignalKey := "SIGNAL:"

  /** The trimmed value after the `KEY:` prefix of `line`. */
  function ValueAfter(line: string, key: string): string
    requires StartsWith(line, key)
  {
    Trim(line[|key|..])
  }

  /** The signal strength a `SIGNAL:` line carries; 0 when it is not a `u8`. */
  function SignalOf(line: string): U8
    requires StartsWith(line, SignalKey)
  {
    ParseU8(ValueAfter(line, SignalKey)).GetOr(0)
  }

  /** The records flushed so far and the record being accumulated. */
  datatype ParseState = ParseState(done: seq<Network>, pending: Network)

  /** One line of the loop in `run_scan`. */
  function Feed(st: ParseState, line: string): ParseState {
    if StartsWith(line, InUseKey) then st.(pending := st.pending.(inUse := ValueAfter(line, InUseKey) == "*"))
    else if StartsWith(line, SsidKey) then st.(pending := st.pending.(ssid := ValueAfter(line, SsidKey)))
    else if StartsWith(line, BssidKey) then st.(pending := st.pending.(bssid := ValueAfter(line, BssidKey)))
    else if StartsWith(line, SecurityKey) then st.(pending := st.pending.(security := ValueAfter(line, SecurityKey)))
    else if StartsWith(line, SignalKey) then ParseState(st.done + [st.pending.(signal := SignalOf(line))], Blank)
    else st
  }

  /** The state after feeding `lines`, in order, to `st`. */
  function FeedAll(st: ParseState, lines: seq<string>): ParseState
    decreases |lines|
  {
    if lines == [] then st else Feed(FeedAll(st, lines[..|lines| - 1]), lines[|lines| - 1])
  }

  const Start := ParseState([], Blank)

  /** The records a report yields, in report order. */
  function Parse(lines: seq<string>): seq<Network> {
    FeedAll(Start, lines).done
  }

  predicate IsSignalLine(line: string) {
    StartsWith(line, SignalKey)
  }

  /** The number of `SIGNAL:` lines in `lines`. */
  function SignalLines(lines: seq<string>): nat
    decreases |lines|
  {
    if lines == [] then 0
    else SignalLines(lines[..|lines| - 1]) + (if IsSignalLine(lines[|lines| - 1]) then 1 else 0)
  }

  /** No two of the five keys can begin the same line. */
  lemma KeysExclusive(line: string)
    ensures StartsWith(line, SignalKey) ==>
      !StartsWith(line, InUseKey) && !StartsWith(line, SsidKey) &&
      !StartsWith(line, BssidKey) && !StartsWith(line, SecurityKey)
  {
    if StartsWith(line, SignalKey) {
      assert line[0] == 'S' && line[1] == 'I';
      assert !StartsWith(line, InUseKey) by { assert InUseKey[0] == 'I'; }
      assert !StartsWith(line, SsidKey) by { assert SsidKey[1] == 'S'; }
      assert !StartsWith(line, BssidKey) by { assert BssidKey[0] == 'B'; }
      assert !StartsWith(line, SecurityKey) by { assert SecurityKey[1] == 'E'; }
    }
  }

  /** A `SIGNAL:` line appends exactly one record and resets the accumulator; any other line appends none. */
  lemma FeedFlushes(st: ParseState, line: string)
    ensures IsSignalLine(line) ==>
      Feed(st, line) == ParseState(st.done + [st.pending.(signal := SignalOf(line))], Blank)
    ensures !IsSignalLine(line) ==> Feed(st, line).done == st.done
  {
    KeysExclusive(line);
  }

  /** Each `SIGNAL:` line yields one record and nothing else does. */
  lemma {:induction false} RecordCount(lines: seq<string>)
    ensures |Parse(lines)| == SignalLines(lines)
  {
    RecordCountFrom(Start, lines);
  }

  lemma {:induction false} RecordCountFrom(st: ParseState, lines: seq<string>)
    ensures |FeedAll(st, lines).done| == |st.done| + SignalLines(lines)
    decreases |lines|
  {
    if lines != [] {
      RecordCountFrom(st, lines[..|lines| - 1]);
      FeedFlushes(FeedAll(st, lines[..|lines| - 1]), lines[|lines| - 1]);
    }
  }

  /** Feeding `a` and then `b` is feeding `a + b`. */
  lemma {:induction false} FeedAllConcat(st: ParseState, a: seq<string>, b: seq<string>)
    ensures FeedAll(st, a + b) == FeedAll(FeedAll(st, a), b)
    decreases |b|
  {
    if b == [] {
      assert a + b == a;
    } else {
      assert (a + b)[..|a + b| - 1] == a + b[..|b| - 1];
      FeedAllConcat(st, a, b[..|b| - 1]);
    }
  }

  /** One line only ever appends to the flushed records. */
  lemma FeedKeepsDone(st: ParseState, line: string)
    ensures Feed(st, line).done == st.done + Feed(ParseState([], st.pending), line).done
    ensures Feed(st, line).pending == Feed(ParseState([], st.pending), line).pending
  {
  }

  /** Records already flushed are never touched again. */
  lemma {:induction false} FeedAllKeepsDone(st: ParseState, lines: seq<string>)
    ensures FeedAll(st, lines).done == st.done + FeedAll(ParseState([], st.pending), lines).done
    ensures FeedAll(st, lines).pending == FeedAll(ParseState([], st.pending), lines).pending
    decreases |lines|
  {
    if lines != [] {
      var front := lines[..|lines| - 1];
      var line := lines[|lines| - 1];
      FeedAllKeepsDone(st, front);
      var a := FeedAll(st, front);
      var b := FeedAll(ParseState([], st.pending), front);
      FeedKeepsDone(a, line);
      FeedKeepsDone(b, line);
    }
  }

  /** Once the accumulator is blank, the rest of a report parses on its own. */
  lemma ParseConcat(a: seq<string>, b: seq<string>)
    requires FeedAll(Start, a).pending == Blank
    ensures Parse(a + b) == Parse(a) + Parse(b)
  {
    FeedAllConcat(Start, a, b);
    FeedAllKeepsDone(FeedAll(Start, a), b);
  }

  /** Fields seen after the last `SIGNAL:` line never reach a record. */
  lemma {:induction false} TrailingFieldsDropped(lines: seq<string>, tail: seq<string>)
    requires forall k :: 0 <= k < |tail| ==> !IsSignalLine(tail[k])
    ensures Parse(lines + tail) == Parse(lines)
    decreases |tail|
  {
    if tail == [] {
      assert lines + tail == lines;
    } else {
      var front := tail[..|tail| - 1];
      assert (lines + tail)[..|lines + tail| - 1] == lines + front;
      TrailingFieldsDropped(lines, front);
      FeedFlushes(FeedAll(Start, lines + front), tail[|tail| - 1]);
    }
  }

  /** The trimmed value of the last line of `block` that starts with `key`, if any. */
  function LastValue(block: seq<string>, key: string): Option<string>
    decreases |block|
  {
    if block == [] then None
    else if StartsWith(block[|block| - 1], key) then Some(ValueAfter(block[|block| - 1], key))
    else LastValue(block[..|block| - 1], key)
  }

  /**
   * The record a block of field lines closed by the line `sig` stands for:
   * each field takes the value of the block's last line for it, a field
   * without a line keeps its default, and `in_use` holds iff that value is `*`.
   */
  function Record(block: seq<string>, sig: string): Network
    requires IsSignalLine(sig)
  {
    Network(
      LastValue(block, InUseKey) == Some("*"),
      LastValue(block, SsidKey).GetOr(""),
      LastValue(block, BssidKey).GetOr(""),
      LastValue(block, SecurityKey).GetOr(""),
      SignalOf(sig))
  }

  /** The accumulator after a block of field lines fed to a blank one holds each field's last value. */
  lemma {:induction false} PendingFields(done: seq<Network>, block: seq<string>)
    requires forall k :: 0 <= k < |block| ==> !IsSignalLine(block[k])
    ensures FeedAll(ParseState(done, Blank), block).done == done
    ensures FeedAll(ParseState(done, Blank), block).pending.inUse == (LastValue(block, InUseKey) == Some("*"))
    ensures FeedAll(ParseState(done, Blank), block).pending.ssid == LastValue(block, SsidKey).GetOr("")
    ensures FeedAll(ParseState(done, Blank), block).pending.bssid == LastValue(block, BssidKey).GetOr("")
    ensures FeedAll(ParseState(done, Blank), block).pending.security == LastValue(block, SecurityKey).GetOr("")
    decreases |block|
  {
    if block != [] {
      var front := block[..|block| - 1];
      var line := block[|block| - 1];
      PendingFields(done, front);
      FeedFlushes(FeedAll(ParseState(done, Blank), front), line);
      KeysExclusiveFields(line);
    }
  }

  /** The four field keys are pairwise exclusive as prefixes. */
  lemma KeysExclusiveFields(line: string)
    ensures StartsWith(line, InUseKey) ==>
      !StartsWith(line, SsidKey) && !StartsWith(line, BssidKey) && !StartsWith(line, SecurityKey)
    ensures StartsWith(line, SsidKey) ==> !StartsWith(line, BssidKey) && !StartsWith(line, SecurityKey)
    ensures StartsWith(line, BssidKey) ==> !StartsWith(line, SecurityKey)
  {
    if StartsWith(line, InUseKey) {
      assert line[0] == 'I';
    }
    if StartsWith(line, SsidKey) {
      assert line[0] == 'S' && line[1] == 'S';
    }
    if StartsWith(line, BssidKey) {
      assert line[0] == 'B';
    }
  }

  /**
   * A `SIGNAL:` line appends exactly the record built from the field lines seen
   * since the previous flush, and the accumulator starts over.
   */
  lemma FlushedRecord(prefix: seq<string>, block: seq<string>, sig: string)
    requires FeedAll(Start, prefix).pending == Blank
    requires forall k :: 0 <= k < |block| ==> !IsSignalLine(block[k])
    requires IsSignalLine(sig)
    ensures Parse(prefix + block + [sig]) == Parse(prefix) + [Record(block, sig)]
    ensures FeedAll(Start, prefix + block + [sig]).pending == Blank
  {
    var st := FeedAll(Start, prefix);
    FeedAllConcat(Start, prefix, block + [sig]);
    assert prefix + block + [sig] == prefix + (block + [sig]);
    assert (block + [sig])[..|block + [sig]| - 1] == block;
    PendingFields(Parse(prefix), block);
    FeedFlushes(FeedAll(st, block), sig);
  }

  /** Signal strengths never increase along `s`. */
  predicate SortedBySignal(s: seq<Network>) {
    forall i, j :: 0 <= i < j < |s| ==> s[i].signal >= s[j].signal
  }

  /** `x` put into `s` just before the first record of no greater signal. */
  function InsertBySignal(x: Network, s: seq<Network>): (r: seq<Network>)
    ensures multiset(r) == multiset(s) + multiset{x}
    ensures |r| == |s| + 1
  {
    if s == [] || x.signal >= s[0].signal then [x] + s
    else
      assert [s[0]] + s[1..] == s;
      [s[0]] + InsertBySignal(x, s[1..])
  }

  /** Inserting into a sorted list keeps it sorted; the new head is `x` or the old head. */
  lemma {:induction false} InsertSorted(x: Network, s: seq<Network>)
    requires SortedBySignal(s)
    ensures SortedBySignal(InsertBySignal(x, s))
    ensures s == [] || x.signal >= s[0].signal ==> InsertBySignal(x, s)[0] == x
    ensures s != [] && x.signal < s[0].signal ==> InsertBySignal(x, s)[0] == s[0]
  {
    var r := InsertBySignal(x, s);
    if s == [] || x.signal >= s[0].signal {
      assert r == [x] + s;
      forall i, j | 0 <= i < j < |r| ensures r[i].signal >= r[j].signal {
        assert r[j] == s[j - 1];
        if i > 0 {
          assert r[i] == s[i - 1];
        }
      }
    } else {
      var t := s[1..];
      var rest := InsertBySignal(x, t);
      SortedTail(s);
      InsertSorted(x, t);
      assert r == [s[0]] + rest;
      assert s[0].signal >= rest[0].signal by {
        if t != [] && x.signal < t[0].signal {
          assert t[0] == s[1];
        }
      }
      forall i, j | 0 <= i < j < |r| ensures r[i].signal >= r[j].signal {
        assert r[j] == rest[j - 1];
        if i > 0 {
          assert r[i] == rest[i - 1];
        } else if j > 1 {
          assert rest[0].signal >= rest[j - 1].signal;
        }
      }
    }
  }

  /** Dropping the first record of an ordered list leaves it ordered. */
  lemma SortedTail(s: seq<Network>)
    requires s != [] && SortedBySignal(s)
    ensures SortedBySignal(s[1..])
  {
    var t := s[1..];
    forall i, j | 0 <= i < j < |t| ensures t[i].signal >= t[j].signal {
      assert t[i] == s[i + 1] && t[j] == s[j + 1];
    }
  }

  /**
   * `sort_by` with the comparator of `run_scan`: a permutation of `s` ordered
   * by non-increasing signal. (The model fixes one order for equal signals.)
   */
  function SortBySignal(s: seq<Network>): (r: seq<Network>)
    ensures SortedBySignal(r)
    ensures multiset(r) == multiset(s)
  {
    if s == [] then []
    else
      assert s == [s[0]] + s[1..];
      InsertSorted(s[0], SortBySignal(s[1..]));
      InsertBySignal(s[0], SortBySignal(s[1..]))
  }

  /** Records with signals 10, 90 and 50 come out as 90, 50, 10. */
  lemma SortExample(a: Network, b: Network, c: Network)
    requires a.signal == 10 && b.signal == 90 && c.signal == 50
    ensures SortBySignal([a, b, c]) == [b, c, a]
  {
    assert [c][1..] == [];
    assert SortBySignal([c]) == [c];
    assert [b, c][1..] == [c];
    assert SortBySignal([b, c]) == InsertBySignal(b, [c]) == [b, c];
    assert [a, b, c][1..] == [b, c];
    assert InsertBySignal(a, [c]) == [c] + InsertBySignal(a, []) == [c, a];
    assert [b, c][1..] == [c];
    assert InsertBySignal(a, [b, c]) == [b] + InsertBySignal(a, [c]) == [b, c, a];
  }

  /** What `run_scan` leaves in `networks` for a given report. */
  function Scanned(lines: seq<string>): seq<Network> {
    SortBySignal(Parse(lines))
  }

  /** After a scan the list is a permutation of the parsed records, strongest first. */
  lemma ScannedOrdered(lines: seq<string>)
    ensures SortedBySignal(Scanned(lines))
    ensures multiset(Scanned(lines)) == multiset(Parse(lines))
    ensures |Scanned(lines)| == SignalLines(lines)
  {
    RecordCount(lines);
    assert |multiset(Scanned(lines))| == |multiset(Parse(lines))|;
  }

  /** `s` neither starts nor ends with white space. */
  predicate Trimmed(s: string) {
    s != [] ==> !IsWhitespace(s[0]) && !IsWhitespace(s[|s| - 1])
  }

  /** A record whose text fields carry no white space at either end. */
  predicate WellFormed(n: Network) {
    Trimmed(n.ssid) && Trimmed(n.bssid) && Trimmed(n.security)
  }

  /** The five lines `nmcli` prints for one access point. */
  function RenderRecord(n: Network): seq<string> {
    [InUseKey + (if n.inUse then "*" else ""),
     SsidKey + n.ssid,
     BssidKey + n.bssid,
     SecurityKey + n.security,
     SignalKey + Decimal(n.signal)]
  }

  /** A whole report listing `nets` in order. */
  function Render(nets: seq<Network>): seq<string>
    decreases |nets|
  {
    if nets == [] then [] else Render(nets[..|nets| - 1]) + RenderRecord(nets[|nets| - 1])
  }

  /** A line that differs from `key` at position `k` does not start with it. */
  lemma Mismatch(line: string, key: string, k: nat)
    requires k < |key| && k < |line| && line[k] != key[k]
    ensures !StartsWith(line, key)
  {
  }

  lemma FeedInUse(st: ParseState, v: string)
    ensures Feed(st, InUseKey + v) == st.(pending := st.pending.(inUse := Trim(v) == "*"))
  {
    var line := InUseKey + v;
    assert line[..7] == InUseKey && line[7..] == v;
  }

  lemma FeedSsid(st: ParseState, v: string)
    ensures Feed(st, SsidKey + v) == st.(pending := st.pending.(ssid := Trim(v)))
  {
    var line := SsidKey + v;
    assert line[..5] == SsidKey && line[5..] == v;
    Mismatch(line, InUseKey, 0);
  }

  lemma FeedBssid(st: ParseState, v: string)
    ensures Feed(st, BssidKey + v) == st.(pending := st.pending.(bssid := Trim(v)))
  {
    var line := BssidKey + v;
    assert line[..6] == BssidKey && line[6..] == v;
    Mismatch(line, InUseKey, 0);
    Mismatch(line, SsidKey, 0);
  }

  lemma FeedSecurity(st: ParseState, v: string)
    ensures Feed(st, SecurityKey + v) == st.(pending := st.pending.(security := Trim(v)))
  {
    var line := SecurityKey + v;
    assert line[..9] == SecurityKey && line[9..] == v;
    Mismatch(line, InUseKey, 0);
    Mismatch(line, SsidKey, 1);
    Mismatch(line, BssidKey, 0);
  }

  lemma FeedSignal(st: ParseState, n: U8)
    ensures Feed(st, SignalKey + Decimal(n)) == ParseState(st.done + [st.pending.(signal := n)], Blank)
  {
    var line := SignalKey + Decimal(n);
    assert line[..7] == SignalKey && line[7..] == Decimal(n);
    Mismatch(line, InUseKey, 0);
    Mismatch(line, SsidKey, 1);
    Mismatch(line, BssidKey, 0);
    Mismatch(line, SecurityKey, 1);
    TrimUntouched(Decimal(n));
    ParseDecimal(n);
  }

  /** The five lines of one well-formed record, fed to a blank accumulator, flush exactly that record. */
  lemma FeedRecord(st: ParseState, n: Network)
    requires st.pending == Blank
    requires WellFormed(n)
    ensures FeedAll(st, RenderRecord(n)) == ParseState(st.done + [n], Blank)
  {
    var lines := RenderRecord(n);
    var flag := if n.inUse then "*" else "";
    TrimUntouched(flag);
    TrimUntouched(n.ssid);
    TrimUntouched(n.bssid);
    TrimUntouched(n.security);
    FeedInUse(st, flag);
    var s1 := Feed(st, lines[0]);
    FeedSsid(s1, n.ssid);
    var s2 := Feed(s1, lines[1]);
    FeedBssid(s2, n.bssid);
    var s3 := Feed(s2, lines[2]);
    FeedSecurity(s3, n.security);
    var s4 := Feed(s3, lines[3]);
    assert s4.pending == n.(signal := 0);
    FeedSignal(s4, n.signal);
    assert lines[..1][..0] == [] && lines[..2][..1] == lines[..1] && lines[..3][..2] == lines[..2];
    assert lines[..4][..3] == lines[..3] && lines[..5][..4] == lines[..4] && lines[..5] == lines;
    assert FeedAll(st, lines[..1]) == s1;
    assert FeedAll(st, lines[..2]) == s2;
    assert FeedAll(st, lines[..3]) == s3;
    assert FeedAll(st, lines[..4]) == s4;
  }

  /** A non-empty sequence is its front followed by its last element. */
  lemma Snoc<T>(s: seq<T>)
    requires s != []
    ensures s[..|s| - 1] + [s[|s| - 1]] == s
  {
  }

  /** Parsing the report `nmcli` prints for well-formed records gives those records back. */
  lemma {:induction false} ParseRender(nets: seq<Network>)
    requires forall k :: 0 <= k < |nets| ==> WellFormed(nets[k])
    ensures FeedAll(Start, Render(nets)) == ParseState(nets, Blank)
    ensures Parse(Render(nets)) == nets
    decreases |nets|
  {
    if nets != [] {
      var front := nets[..|nets| - 1];
      var n := nets[|nets| - 1];
      assert forall k :: 0 <= k < |front| ==> WellFormed(front[k]) by {
        forall k | 0 <= k < |front| ensures WellFormed(front[k]) {
          assert front[k] == nets[k];
        }
      }
      ParseRender(front);
      assert WellFormed(n);
      assert Render(nets) == Render(front) + RenderRecord(n);
      FeedAllConcat(Start, Render(front), RenderRecord(n));
      FeedRecord(ParseState(front, Blank), n);
      Snoc(nets);
    }
  }
}
