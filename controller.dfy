/**
 * `NetworkUi`: the highlighted index and the network list, the selection
 * loop that reacts to keys, and the actions it takes on the highlighted
 * network.
 */
module Controller {
  import opened Wrappers
  import opened Text
  import opened Report
  import opened Layout
  import opened Keys
  import Password
  import opened Commands

  /** Up and Down: `A` and `B`, which is also what ESC [ A and ESC [ B decode to. */
  const UP: int := 65
  const DOWN: int := 66
  const QUIT: int := 'q' as int
  const RESCAN: int := 'r' as int
  const DISCONNECT: int := 'd' as int
  const FORGET: int := 'f' as int

  /** The keys that end the selection loop. */
  predicate Ends(code: int) {
    code == ERR || code == ENTER || code == QUIT || code == ESC
  }

  /** How `select_network` ends: `Some(index)`, `None`, or a panic on an out-of-range index. */
  datatype Outcome = Selected(index: nat) | Cancelled | Crashed

  /**
   * The state the selection loop works on, how many list reports it has
   * consumed, the `nmcli` commands it has issued, in order, and the names
   * whose profile has a saved password (those for which `is_password_cached`
   * succeeds).
   */
  datatype Session = Session(highlight: nat, networks: seq<Network>, scans: nat, issued: seq<seq<string>>,
                             saved: set<string>)

  /** The report the `k`-th scan reads; an exhausted supply means `nmcli` printed nothing. */
  function NthReport(reports: seq<seq<string>>, k: nat): seq<string> {
    if k < |reports| then reports[k] else []
  }

  /** `networks.len() - 1` in `usize`: it wraps to `usize::MAX` on an empty list. */
  function LastIndex(len: nat): nat {
    if len == 0 then UsizeModulus - 1 else len - 1
  }

  /** `run_scan`: the list is replaced by the next report's records, strongest first. */
  function Rescanned(s: Session, reports: seq<seq<string>>): Session {
    s.(networks := Scanned(NthReport(reports, s.scans)), scans := s.scans + 1, issued := s.issued + [ScanArgv])
  }

  /**
   * The saved passwords after `forget_password(name)`: `connection delete`
   * removes the profile, so later queries for it fail; an empty name
   * deletes nothing.
   */
  function Forgotten(saved: set<string>, name: string): (r: set<string>)
    ensures name != "" ==> name !in r
    ensures forall other :: other != name ==> (other in r <==> other in saved)
  {
    if ForgetArgv(name).Some? then saved - {name} else saved
  }

  /**
   * One pass of the loop body of `select_network` for a key that does not end
   * the loop; `None` is a panic from indexing `networks` with `highlight`.
   */
  function React(s: Session, key: int, reports: seq<seq<string>>): Option<Session> {
    if key == RESCAN then Some(Rescanned(s, reports).(highlight := 0))
    else if s.highlight > 0 && key == UP then Some(s.(highlight := s.highlight - 1))
    else if s.highlight < LastIndex(|s.networks|) && key == DOWN then Some(s.(highlight := s.highlight + 1))
    else if key == DISCONNECT then
      if s.highlight >= |s.networks| then None
      else if s.networks[s.highlight].inUse then
        Some(Rescanned(s.(issued := Issue(s.issued, DisconnectArgv(s.networks[s.highlight].ssid))), reports))
      else Some(s)
    else if key == FORGET then
      if s.highlight >= |s.networks| then None
      else if s.networks[s.highlight].ssid in s.saved then
        var name := s.networks[s.highlight].ssid;
        Some(Rescanned(s.(issued := Issue(s.issued, ForgetArgv(name)), saved := Forgotten(s.saved, name)), reports))
      else Some(s)
    else Some(s)
  }

  /** `select_network` on the key codes from position `pos` on: its outcome and final state. */
  function Select(s: Session, keys: seq<int>, pos: nat, reports: seq<seq<string>>): (Outcome, Session)
    decreases |keys| - pos
  {
    var d := Decode(keys, pos);
    if Ends(d.code) then (if d.code == ENTER then Selected(s.highlight) else Cancelled, s)
    else
      match React(s, d.code, reports)
      case None => (Crashed, s)
      case Some(t) => Select(t, keys, d.next, reports)
  }

  /** The highlight is on the list, or the list is empty and the highlight is 0. */
  predicate HighlightValid(s: Session) {
    s.highlight < |s.networks| || (s.networks == [] && s.highlight == 0)
  }

  /**
   * Up and Down on a non-empty list move the highlight by one without
   * wrapping, keep it on the list and touch nothing else.
   */
  lemma MovesStayInRange(s: Session, key: int, reports: seq<seq<string>>)
    requires s.highlight < |s.networks|
    requires key == UP || key == DOWN
    ensures React(s, key, reports).Some?
    ensures var t := React(s, key, reports).value;
      t.networks == s.networks && t.scans == s.scans && t.issued == s.issued && t.saved == s.saved &&
      t.highlight < |t.networks| &&
      (key == UP ==> t.highlight == if s.highlight > 0 then s.highlight - 1 else 0) &&
      (key == DOWN ==> t.highlight == if s.highlight + 1 < |s.networks| then s.highlight + 1 else s.highlight)
  {
  }

  /**
   * Down on an empty list: `networks.len() - 1` wraps round, so the
   * highlight becomes 1 although there is nothing to highlight.
   */
  lemma DownOnEmptyList(s: Session, reports: seq<seq<string>>)
    requires s.networks == [] && s.highlight == 0
    ensures React(s, DOWN, reports) == Some(s.(highlight := 1))
    ensures !HighlightValid(React(s, DOWN, reports).value)
  {
  }

  /** `r` replaces the list with the next report's records and puts the highlight on the first. */
  lemma RescanResets(s: Session, reports: seq<seq<string>>)
    ensures React(s, RESCAN, reports).Some?
    ensures var t := React(s, RESCAN, reports).value;
      t.highlight == 0 && HighlightValid(t) &&
      t.networks == Scanned(NthReport(reports, s.scans)) &&
      SortedBySignal(t.networks) &&
      t.scans == s.scans + 1 && t.issued == s.issued + [ScanArgv] && t.saved == s.saved
  {
    ScannedOrdered(NthReport(reports, s.scans));
  }

  /** Every key other than `r`, Up, Down, `d` and `f` leaves the state as it is. */
  lemma OtherKeysIgnored(s: Session, key: int, reports: seq<seq<string>>)
    requires key != RESCAN && key != UP && key != DOWN && key != DISCONNECT && key != FORGET
    ensures React(s, key, reports) == Some(s)
  {
  }

  /**
   * Keys other than `d` and `f` keep the highlight valid; the one exception
   * is Down on an empty list.
   */
  lemma HighlightKeptInRange(s: Session, key: int, reports: seq<seq<string>>)
    requires HighlightValid(s)
    requires key != DISCONNECT && key != FORGET
    ensures React(s, key, reports).Some?
    ensures HighlightValid(React(s, key, reports).value) <==> !(s.networks == [] && key == DOWN)
  {
  }

  /** `d` and `f` index the list with the highlight: off the list, the program panics. */
  lemma StaleIndexCrashes(s: Session, key: int, reports: seq<seq<string>>)
    requires key == DISCONNECT || key == FORGET
    ensures React(s, key, reports) == None <==> s.highlight >= |s.networks|
  {
  }

  /**
   * `d` acts only on the network in use: it takes that profile down (when it
   * has a name) and rescans, leaving the highlight where it was.
   */
  lemma DisconnectGuard(s: Session, reports: seq<seq<string>>)
    requires s.highlight < |s.networks|
    ensures React(s, DISCONNECT, reports).Some?
    ensures var n := s.networks[s.highlight];
      var t := React(s, DISCONNECT, reports).value;
      if n.inUse then
        t.highlight == s.highlight && t.networks == Scanned(NthReport(reports, s.scans)) && t.scans == s.scans + 1 &&
        t.issued == s.issued + (if n.ssid == "" then [] else [["con", "down", "id", n.ssid]]) + [ScanArgv] &&
        t.saved == s.saved
      else t == s
  {
  }

  /**
   * `f` acts only when the highlighted network's password is saved: it
   * deletes that profile (when it has a name), so the password is no longer
   * saved, and rescans, leaving the highlight where it was.
   */
  lemma ForgetGuard(s: Session, reports: seq<seq<string>>)
    requires s.highlight < |s.networks|
    ensures React(s, FORGET, reports).Some?
    ensures var n := s.networks[s.highlight];
      var t := React(s, FORGET, reports).value;
      if n.ssid in s.saved then
        t.highlight == s.highlight && t.networks == Scanned(NthReport(reports, s.scans)) && t.scans == s.scans + 1 &&
        t.issued == s.issued + (if n.ssid == "" then [] else [["connection", "delete", n.ssid]]) + [ScanArgv] &&
        t.saved == (if n.ssid == "" then s.saved else s.saved - {n.ssid})
      else t == s
  {
  }

  /**
   * Once `f` has deleted a profile, `is_password_cached` fails for it: a
   * second `f` on a network of that name does nothing.
   */
  lemma ForgetOnlyOnce(s: Session, reports: seq<seq<string>>)
    requires s.highlight < |s.networks|
    requires s.networks[s.highlight].ssid in s.saved && s.networks[s.highlight].ssid != ""
    ensures React(s, FORGET, reports).Some?
    ensures var t := React(s, FORGET, reports).value;
      t.highlight < |t.networks| && t.networks[t.highlight].ssid == s.networks[s.highlight].ssid ==>
        React(t, FORGET, reports) == Some(t)
  {
  }

  /**
   * `f`, `f`, Enter on a network whose rescans keep listing it: the first `f`
   * deletes its profile, the second finds no saved password and does nothing.
   * `RescanListsAgain` gives a report that lists `home` again.
   */
  lemma ForgetTwice(home: Network, report: seq<string>)
    requires home.ssid == "home" && Scanned(report) == [home]
    ensures Select(Session(0, [home], 0, [], {"home"}), [FORGET, FORGET, ENTER], 0, [report, report])
      == (Selected(0), Session(0, [home], 1, [["connection", "delete", "home"], ScanArgv], {}))
  {
    var keys := [FORGET, FORGET, ENTER];
    var reports := [report, report];
    assert NthReport(reports, 0) == report;
    var del := ["connection", "delete", "home"];
    assert ForgetArgv("home") == Some(del);
    assert Issue([], Some(del)) == [del];
    assert Forgotten({"home"}, "home") == {};
    var s := Session(0, [home], 0, [], {"home"});
    var t := Session(0, [home], 1, [del, ScanArgv], {});
    assert LastIndex(|s.networks|) == 0 && s.networks[s.highlight].ssid in s.saved;
    assert Rescanned(s.(issued := [del], saved := {}), reports) == t;
    assert React(s, FORGET, reports) == Some(t);
    assert React(t, FORGET, reports) == Some(t);
    assert Decode(keys, 0) == Decoded(FORGET, 1);
    assert Decode(keys, 1) == Decoded(FORGET, 2);
    assert Decode(keys, 2) == Decoded(ENTER, 3);
    assert Select(t, keys, 2, reports) == (Selected(0), t);
    assert Select(t, keys, 1, reports) == Select(t, keys, 2, reports);
    assert Select(s, keys, 0, reports) == Select(t, keys, 1, reports);
  }

  /** The report `nmcli` prints for a single well-formed record scans back to that record. */
  lemma RescanListsAgain(home: Network)
    requires WellFormed(home)
    ensures Scanned(Render([home])) == [home]
  {
    ParseRender([home]);
    assert [home][1..] == [];
    assert SortBySignal([home]) == [home];
  }

  /**
   * The highlight goes stale: disconnecting the second of two networks when
   * the rescan finds none leaves the highlight at 1, and a second `d` panics.
   */
  lemma StaleHighlightAfterDisconnect()
    ensures var s := Session(1, [Blank, Blank.(ssid := "home", inUse := true)], 0, [], {});
      var t := React(s, DISCONNECT, []);
      t == Some(Session(1, [], 1, [["con", "down", "id", "home"], ScanArgv], {})) &&
      !HighlightValid(t.value) &&
      React(t.value, DISCONNECT, []) == None
  {
    var s := Session(1, [Blank, Blank.(ssid := "home", inUse := true)], 0, [], {});
    assert s.networks[1].inUse && s.networks[1].ssid == "home";
    assert DisconnectArgv("home") == Some(["con", "down", "id", "home"]);
    assert NthReport([], 0) == [];
    assert Parse([]) == [];
    assert Scanned([]) == [];
    var t := React(s, DISCONNECT, []);
    assert t.Some?;
    assert t.value.highlight == 1;
    assert t.value.networks == [];
    assert t.value.issued == [["con", "down", "id", "home"], ScanArgv];
  }

  /** The loop stops at the first decoded ERR, Enter, `q` or ESC: Enter selects the highlight. */
  lemma SelectStops(s: Session, keys: seq<int>, pos: nat, reports: seq<seq<string>>)
    requires Ends(Decode(keys, pos).code)
    ensures Select(s, keys, pos, reports).1 == s
    ensures Select(s, keys, pos, reports).0 == Selected(s.highlight) <==> Decode(keys, pos).code == ENTER
    ensures Select(s, keys, pos, reports).0 == Cancelled <==> Decode(keys, pos).code != ENTER
  {
  }

  /**
   * With an empty list, Enter still selects index 0 (which `connect` then
   * indexes out of range); only ERR, `q` and ESC give `None`.
   */
  lemma EnterOnEmptyList(rest: seq<int>, reports: seq<seq<string>>, saved: set<string>)
    ensures Select(Session(0, [], 0, [], saved), [ENTER] + rest, 0, reports).0 == Selected(0)
  {
    assert ([ENTER] + rest)[0] == ENTER;
  }

  /** The codes from `pos` on are all Up or Down presses, sent as the plain letters. */
  predicate OnlyMoves(keys: seq<int>, pos: nat) {
    forall j :: pos <= j < |keys| ==> keys[j] == UP || keys[j] == DOWN
  }

  /**
   * Moving about a non-empty list and then pressing Enter selects an entry of
   * that list: the list is not rescanned, no command is issued, and nothing panics.
   */
  lemma {:induction false} MovesThenEnter(s: Session, keys: seq<int>, pos: nat, rest: seq<int>,
                                         reports: seq<seq<string>>)
    requires s.highlight < |s.networks|
    requires pos <= |keys| && OnlyMoves(keys, pos)
    ensures var r := Select(s, keys + [ENTER] + rest, pos, reports);
      r.0.Selected? && r.0.index < |s.networks| && r.0.index == r.1.highlight &&
      r.1.networks == s.networks && r.1.issued == s.issued && r.1.scans == s.scans && r.1.saved == s.saved
    decreases |keys| - pos
  {
    var all := keys + [ENTER] + rest;
    if pos == |keys| {
      assert all[pos] == ENTER;
    } else {
      var key := keys[pos];
      assert all[pos] == key;
      assert Decode(all, pos) == Decoded(key, pos + 1);
      MovesStayInRange(s, key, reports);
      var t := React(s, key, reports).value;
      MovesThenEnter(t, keys, pos + 1, rest, reports);
    }
  }

  /** What `connect` does: panic, nothing, run a command, or wait at the password prompt. */
  datatype Attempt = Panicked | Skipped | Issued(argv: seq<string>, used: nat) | Prompting

  class NetworkUi {
    var highlight: nat
    var networks: seq<Network>

    constructor ()
      ensures highlight == 0 && networks == []
    {
      highlight := 0;
      networks := [];
    }

    /** `run_scan` on the lines `nmcli` printed. */
    method RunScan(report: seq<string>)
      modifies this`networks
      ensures networks == Scanned(report)
    {
      networks := [];
      var network := Blank;
      for i := 0 to |report|
        invariant FeedAll(Start, report[..i]) == ParseState(networks, network)
      {
        var line := report[i];
        if StartsWith(line, InUseKey) {
          network := network.(inUse := Trim(line[7..]) == "*");
        } else if StartsWith(line, SsidKey) {
          network := network.(ssid := Trim(line[5..]));
        } else if StartsWith(line, BssidKey) {
          network := network.(bssid := Trim(line[6..]));
        } else if StartsWith(line, SecurityKey) {
          network := network.(security := Trim(line[9..]));
        } else if StartsWith(line, SignalKey) {
          network := network.(signal := ParseU8(Trim(line[7..])).GetOr(0));
          networks := networks + [network];
          network := Blank;
        }
        assert report[..i + 1][..i] == report[..i];
      }
      assert report[..|report|] == report;
      networks := SortBySignal(networks);
    }

    /** `display_networks` in a window of `maxx` columns and `maxy` rows: the list rows it draws. */
    method DisplayNetworks(maxx: I32, maxy: I32) returns (rows: seq<Row>)
      ensures rows == Rows(networks, highlight, maxx, maxy)
    {
      rows := [];
      if networks == [] {
        return;
      }
      var maxSecurityLength := SecurityWidth(networks);
      var maxCombinedLength := if maxx - maxSecurityLength - 6 > 0 then maxx - maxSecurityLength - 6 else 0;
      var winHeight := if maxy - 4 > 0 then maxy - 4 else 0;
      var startIndex := if highlight - winHeight + 1 > 0 then highlight - winHeight + 1 else 0;
      var endIndex := if |networks| < startIndex + winHeight then |networks| else startIndex + winHeight;
      assert maxCombinedLength == NameWidth(maxx, maxSecurityLength);
      assert startIndex == ViewStart(highlight, ViewHeight(maxy));
      assert endIndex == ViewEnd(|networks|, startIndex, ViewHeight(maxy));
      rows := DrawRows(networks, startIndex, endIndex, highlight, maxCombinedLength, maxSecurityLength);
    }

    /** The first loop of `display_networks`: the width of the security column. */
    static method SecurityWidth(networks: seq<Network>) returns (maxSecurityLength: nat)
      ensures maxSecurityLength == MaxSecurityLength(networks)
    {
      maxSecurityLength := 3;
      for i := 0 to |networks|
        invariant maxSecurityLength == MaxSecurityLength(networks[..i])
      {
        if |networks[i].security| > maxSecurityLength {
          maxSecurityLength := |networks[i].security|;
        }
        assert networks[..i + 1][..i] == networks[..i];
      }
      assert networks[..|networks|] == networks;
    }

    /** The drawing loop `for i in start_index..end_index`: one row per visible network. */
    static method DrawRows(networks: seq<Network>, startIndex: nat, endIndex: nat, highlight: nat,
                           maxCombinedLength: nat, maxSecurityLength: nat) returns (rows: seq<Row>)
      requires endIndex <= |networks|
      ensures rows == RowsBetween(networks, startIndex, endIndex, highlight, maxCombinedLength, maxSecurityLength)
    {
      rows := [];
      if startIndex < endIndex {
        for i := startIndex to endIndex
          invariant rows == RowsBetween(networks, startIndex, i, highlight, maxCombinedLength, maxSecurityLength)
        {
          var row := FormatRow(networks[i], i, startIndex, highlight, maxCombinedLength, maxSecurityLength);
          RowsBetweenStep(networks, startIndex, i, highlight, maxCombinedLength, maxSecurityLength);
          rows := rows + [row];
        }
      }
    }

    /** One pass of the drawing loop: the row `display_networks` prints for `n`, the network at index `i`. */
    static method FormatRow(n: Network, i: nat, startIndex: nat, highlight: nat, maxCombinedLength: nat, maxSecurityLength: nat)
      returns (row: Row)
      requires startIndex <= i
      ensures row == RowOf(n, i, startIndex, highlight, maxCombinedLength, maxSecurityLength)
    {
      var color := if n.signal >= 66 then Strong else if n.signal >= 33 then Medium else Weak;
      var ss := if n.inUse then "> " else "  ";
      var ssid := if n.ssid == "" then "---" else n.ssid;
      var security := if n.security == "" then "---" else n.security;
      if |ssid| > maxCombinedLength {
        ssid := Truncate(ssid, WrappingSub(maxCombinedLength, 3)) + "...";
      }
      ss := ss + PadRight(ssid, maxCombinedLength) + PadRight(security, maxSecurityLength) + "  ";
      row := Row(i - startIndex + 3, ss, color, n.inUse, i == highlight);
    }

    /**
     * `select_network` on the key codes `keys`: each rescan reads the next of
     * `reports`; `is_password_cached` succeeds for the names in `saved`, less
     * those the loop has deleted. It returns how the loop ended, the commands
     * it issued and the names still saved.
     */
    method SelectNetwork(keys: seq<int>, reports: seq<seq<string>>, saved: set<string>)
      returns (outcome: Outcome, issued: seq<seq<string>>, left: set<string>)
      modifies this
      ensures var r := Select(Session(old(highlight), old(networks), 0, [], saved), keys, 0, reports);
        outcome == r.0 && highlight == r.1.highlight && networks == r.1.networks && issued == r.1.issued &&
        left == r.1.saved
    {
      ghost var goal := Select(Session(highlight, networks, 0, [], saved), keys, 0, reports);
      var scans := 0;
      issued, left := [], saved;
      ghost var at := 0;
      var input, pos := GetInput(keys, 0);
      while !Ends(input)
        invariant Decode(keys, at) == Decoded(input, pos)
        invariant Select(Session(highlight, networks, scans, issued, left), keys, at, reports) == goal
        decreases |keys| - at
      {
        ghost var before := Session(highlight, networks, scans, issued, left);
        if input == RESCAN {
          RunScan(NthReport(reports, scans));
          scans, issued := scans + 1, issued + [ScanArgv];
          highlight := 0;
        } else if highlight > 0 && input == UP {
          highlight := highlight - 1;
        } else if highlight < LastIndex(|networks|) && input == DOWN {
          highlight := highlight + 1;
        } else if input == DISCONNECT {
          if highlight >= |networks| {
            outcome := Crashed;
            return;
          }
          if networks[highlight].inUse {
            issued := Issue(issued, DisconnectArgv(networks[highlight].ssid));
            RunScan(NthReport(reports, scans));
            scans, issued := scans + 1, issued + [ScanArgv];
          }
        } else if input == FORGET {
          if highlight >= |networks| {
            outcome := Crashed;
            return;
          }
          if networks[highlight].ssid in left {
            var name := networks[highlight].ssid;
            issued := Issue(issued, ForgetArgv(name));
            if name != "" {
              left := left - {name};
            }
            RunScan(NthReport(reports, scans));
            scans, issued := scans + 1, issued + [ScanArgv];
          }
        }
        assert React(before, input, reports) == Some(Session(highlight, networks, scans, issued, left));
        at := pos;
        input, pos := GetInput(keys, pos);
      }
      outcome := if input == ENTER then Selected(highlight) else Cancelled;
    }

    /**
     * `connect(index)`: the command it runs, given the names with a cached
     * password and the key codes typed at the password prompt.
     */
    method Connect(index: nat, cached: set<string>, keys: seq<int>) returns (attempt: Attempt)
      ensures attempt == Panicked <==> index >= |networks|
      ensures attempt == Skipped <==> index < |networks| && (networks[index].bssid == "" || networks[index].inUse)
      ensures index < |networks| && networks[index].bssid != "" && !networks[index].inUse ==>
        if networks[index].ssid in cached then attempt == Issued(UpArgv(networks[index].ssid), 0)
        else match Password.PasswordOf(keys)
          case Unfinished => attempt == Prompting
          case Captured(password, used) => attempt == Issued(NewConnectionArgv(networks[index].bssid, password), used)
    {
      if index >= |networks| {
        return Panicked;
      }
      var n := networks[index];
      if n.bssid == "" || n.inUse {
        return Skipped;
      }
      if n.ssid in cached {
        return Issued(UpArgv(n.ssid), 0);
      }
      var capture := Password.GetPassword(keys);
      match capture
      case Unfinished =>
        attempt := Prompting;
      case Captured(password, used) =>
        attempt := Issued(NewConnectionArgv(n.bssid, password), used);
    }
  }
}
