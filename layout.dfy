/**
 * What `display_networks` draws: the visible window of the list and, for
 * each visible network, its row number, text and attributes.
 */
module Layout {
  import opened Report

  /** Colour pair of a row: 1 (red), 2 (yellow) or 3 (green). */
  datatype Tier = Weak | Medium | Strong

  /** One `mvwprintw` of a list row at column 1, with the attributes switched on around it. */
  datatype Row = Row(y: int, text: string, tier: Tier, bold: bool, reverse: bool)

  /** `usize` arithmetic wraps modulo 2^64 in a release build. */
  const UsizeModulus: int := 0x1_0000_0000_0000_0000

  /** No Rust string is longer than `isize::MAX` bytes. */
  const IsizeMax: int := 0x7FFF_FFFF_FFFF_FFFF

  /** `a - b` on `usize` values in a release build: below zero it wraps round. */
  function WrappingSub(a: nat, b: nat): nat
    requires b <= UsizeModulus
  {
    if a >= b then a - b else UsizeModulus + a - b
  }

  /** The window size `getmaxx`/`getmaxy` reports, an `i32`. */
  type I32 = x: int | -0x8000_0000 <= x < 0x8000_0000

  function TierOf(signal: int): Tier {
    if signal >= 66 then Strong else if signal >= 33 then Medium else Weak
  }

  /** `max_security_length`: the longest security label, but at least 3. */
  function MaxSecurityLength(nets: seq<Network>): (w: nat)
    ensures w >= 3
    ensures forall k :: 0 <= k < |nets| ==> |nets[k].security| <= w
    ensures w == 3 || exists k :: 0 <= k < |nets| && |nets[k].security| == w
    decreases |nets|
  {
    if nets == [] then 3
    else
      var m := MaxSecurityLength(nets[..|nets| - 1]);
      var last := |nets[|nets| - 1].security|;
      if last > m then last else m
  }

  /** `max_combined_length`: the width left for the SSID column. */
  function NameWidth(maxx: I32, securityWidth: nat): (w: nat)
    ensures w < UsizeModulus
  {
    if maxx - securityWidth - 6 > 0 then maxx - securityWidth - 6 else 0
  }

  /** `win_height`: the rows left between the two header rows and the footer rule. */
  function ViewHeight(maxy: I32): nat {
    if maxy - 4 > 0 then maxy - 4 else 0
  }

  /** `start_index`: scroll just far enough that `highlight` is on the last visible row. */
  function ViewStart(highlight: nat, height: nat): nat {
    if highlight - height + 1 > 0 then highlight - height + 1 else 0
  }

  /** `end_index`. */
  function ViewEnd(len: nat, start: nat, height: nat): nat {
    if len < start + height then len else start + height
  }

  /** An empty field shows as `---`. */
  function Placeholder(s: string): string {
    if s == "" then "---" else s
  }

  /** `String::truncate`: keep the first `n` characters; no-op when `n` is not shorter. */
  function Truncate(s: string, n: nat): string {
    if n < |s| then s[..n] else s
  }

  /**
   * The SSID cell before padding: too long a name is cut to `width - 3`
   * characters and ends in `...`. The subtraction is a `usize` one.
   */
  function FitName(ssid: string, width: nat): string {
    var name := Placeholder(ssid);
    if |name| > width then Truncate(name, WrappingSub(width, 3)) + "..." else name
  }

  /** `n` spaces. */
  function Spaces(n: nat): (r: string)
    ensures |r| == n
  {
    if n == 0 then "" else Spaces(n - 1) + " "
  }

  /** `{:<width$}`: left-aligned, padded with spaces to at least `width`. */
  function PadRight(s: string, width: nat): string {
    if |s| < width then s + Spaces(width - |s|) else s
  }

  /** The two columns before the SSID: `> ` for the network in use. */
  function Marker(inUse: bool): string {
    if inUse then "> " else "  "
  }

  /** The text `ss` of one row. */
  function RowText(n: Network, nameWidth: nat, securityWidth: nat): string {
    Marker(n.inUse) + PadRight(FitName(n.ssid, nameWidth), nameWidth)
      + PadRight(Placeholder(n.security), securityWidth) + "  "
  }

  /** The row drawn for `networks[i]`. */
  function RowOf(n: Network, i: nat, start: nat, highlight: nat, nameWidth: nat, securityWidth: nat): Row {
    Row(i - start + 3, RowText(n, nameWidth, securityWidth), TierOf(n.signal), n.inUse, i == highlight)
  }

  /**
   * `[f(nets[lo], lo), ..., f(nets[hi - 1], hi - 1)]`: what a loop over the
   * indices `lo..hi` collects, one element per index, in order.
   */
  function MapIndexed<T>(nets: seq<Network>, lo: nat, hi: nat, f: (Network, nat) -> T): (r: seq<T>)
    requires hi <= |nets|
    ensures |r| == if lo < hi then hi - lo else 0
  {
    if hi <= lo then [] else MapIndexed(nets, lo, hi - 1, f) + [f(nets[hi - 1], hi - 1)]
  }

  /** The `k`-th element collected is the one for index `lo + k`. */
  lemma {:induction false} MapIndexedAt<T>(nets: seq<Network>, lo: nat, hi: nat, f: (Network, nat) -> T, k: nat)
    requires lo + k < hi <= |nets|
    ensures MapIndexed(nets, lo, hi, f)[k] == f(nets[lo + k], lo + k)
    decreases hi
  {
    var prev := MapIndexed(nets, lo, hi - 1, f);
    assert MapIndexed(nets, lo, hi, f) == prev + [f(nets[hi - 1], hi - 1)];
    if lo + k < hi - 1 {
      MapIndexedAt(nets, lo, hi - 1, f, k);
    }
  }

  /** The rows of `nets[start..end]`, in order: what the drawing loop has produced once it reaches `end`. */
  function RowsBetween(nets: seq<Network>, start: nat, end: nat, highlight: nat, nameWidth: nat, securityWidth: nat): (rows: seq<Row>)
    requires end <= |nets|
    ensures |rows| == if start < end then end - start else 0
  {
    MapIndexed(nets, start, end, (n: Network, i: nat) => RowOf(n, i, start, highlight, nameWidth, securityWidth))
  }

  /** Everything `display_networks` draws in the list area of a `maxx` by `maxy` window. */
  function Rows(nets: seq<Network>, highlight: nat, maxx: I32, maxy: I32): seq<Row> {
    if nets == [] then []
    else
      var securityWidth := MaxSecurityLength(nets);
      var start := ViewStart(highlight, ViewHeight(maxy));
      RowsBetween(nets, start, ViewEnd(|nets|, start, ViewHeight(maxy)), highlight,
        NameWidth(maxx, securityWidth), securityWidth)
  }

  /** The window never goes past the list and never holds more than `win_height` rows. */
  lemma ViewportBounds(len: nat, highlight: nat, maxy: I32)
    ensures ViewEnd(len, ViewStart(highlight, ViewHeight(maxy)), ViewHeight(maxy)) <= len
    ensures ViewEnd(len, ViewStart(highlight, ViewHeight(maxy)), ViewHeight(maxy))
      - ViewStart(highlight, ViewHeight(maxy)) <= ViewHeight(maxy)
    ensures ViewHeight(maxy) >= 1 && highlight < len ==>
      ViewStart(highlight, ViewHeight(maxy)) <= highlight
      < ViewEnd(len, ViewStart(highlight, ViewHeight(maxy)), ViewHeight(maxy))
  {
  }

  /**
   * The list rows stay between the header rule (row 2) and the footer rule
   * (row `maxy - 1`), one per visible network, in list order.
   */
  lemma RowsInWindow(nets: seq<Network>, highlight: nat, maxx: I32, maxy: I32)
    ensures |Rows(nets, highlight, maxx, maxy)| <= ViewHeight(maxy)
    ensures |Rows(nets, highlight, maxx, maxy)| <= |nets|
    ensures forall k :: 0 <= k < |Rows(nets, highlight, maxx, maxy)| ==>
      Rows(nets, highlight, maxx, maxy)[k].y == k + 3 && 3 <= k + 3 <= maxy - 2
  {
    var rows := Rows(nets, highlight, maxx, maxy);
    if nets != [] {
      var height := ViewHeight(maxy);
      ViewportBounds(|nets|, highlight, maxy);
      assert |rows| <= height;
      forall k | 0 <= k < |rows| ensures rows[k].y == k + 3 && 3 <= k + 3 <= maxy - 2 {
        RowAt(nets, highlight, maxx, maxy, k);
      }
    }
  }

  lemma RowsBetweenStep(nets: seq<Network>, start: nat, i: nat, highlight: nat, nameWidth: nat, securityWidth: nat)
    requires start <= i < |nets|
    ensures RowsBetween(nets, start, i + 1, highlight, nameWidth, securityWidth)
      == RowsBetween(nets, start, i, highlight, nameWidth, securityWidth) + [RowOf(nets[i], i, start, highlight, nameWidth, securityWidth)]
  {
  }

  /** The `k`-th row the loop draws is the row of `nets[start + k]`. */
  lemma RowsBetweenIndex(nets: seq<Network>, start: nat, end: nat, highlight: nat,
                         nameWidth: nat, securityWidth: nat, k: nat)
    requires start + k < end <= |nets|
    ensures RowsBetween(nets, start, end, highlight, nameWidth, securityWidth)[k]
      == RowOf(nets[start + k], start + k, start, highlight, nameWidth, securityWidth)
  {
    MapIndexedAt(nets, start, end, (n: Network, i: nat) => RowOf(n, i, start, highlight, nameWidth, securityWidth), k);
  }

  /** Row by row, the loop's rows are those of the window from `start` to `end`. */
  lemma RowsBetweenAt(nets: seq<Network>, start: nat, end: nat, highlight: nat,
                      nameWidth: nat, securityWidth: nat)
    requires end <= |nets|
    ensures forall k :: 0 <= k < |RowsBetween(nets, start, end, highlight, nameWidth, securityWidth)| ==>
      RowsBetween(nets, start, end, highlight, nameWidth, securityWidth)[k] == RowOf(nets[start + k], start + k, start, highlight, nameWidth, securityWidth)
  {
    forall k | 0 <= k < |RowsBetween(nets, start, end, highlight, nameWidth, securityWidth)|
      ensures RowsBetween(nets, start, end, highlight, nameWidth, securityWidth)[k]
        == RowOf(nets[start + k], start + k, start, highlight, nameWidth, securityWidth)
    {
      RowsBetweenIndex(nets, start, end, highlight, nameWidth, securityWidth, k);
    }
  }

  /** Row `k` of the list area is the row of `nets[start + k]`. */
  lemma RowAt(nets: seq<Network>, highlight: nat, maxx: I32, maxy: I32, k: nat)
    requires k < |Rows(nets, highlight, maxx, maxy)|
    ensures nets != []
    ensures ViewStart(highlight, ViewHeight(maxy)) + k < |nets|
    ensures Rows(nets, highlight, maxx, maxy)[k] ==
      RowOf(nets[ViewStart(highlight, ViewHeight(maxy)) + k], ViewStart(highlight, ViewHeight(maxy)) + k,
        ViewStart(highlight, ViewHeight(maxy)), highlight, NameWidth(maxx, MaxSecurityLength(nets)), MaxSecurityLength(nets))
  {
    RowsBetweenIndex(nets, ViewStart(highlight, ViewHeight(maxy)),
      ViewEnd(|nets|, ViewStart(highlight, ViewHeight(maxy)), ViewHeight(maxy)), highlight,
      NameWidth(maxx, MaxSecurityLength(nets)), MaxSecurityLength(nets), k);
  }

  /**
   * Whenever there is room for one row and the highlight is on the list, the
   * highlighted network is drawn, at row `highlight - start + 3`, in reverse
   * video (`RowAt` gives its text).
   */
  lemma HighlightDrawn(nets: seq<Network>, highlight: nat, maxx: I32, maxy: I32)
    requires highlight < |nets|
    requires maxy >= 5
    ensures ViewStart(highlight, ViewHeight(maxy)) <= highlight
      < ViewStart(highlight, ViewHeight(maxy)) + |Rows(nets, highlight, maxx, maxy)|
    ensures Rows(nets, highlight, maxx, maxy)[highlight - ViewStart(highlight, ViewHeight(maxy))].reverse
    ensures Rows(nets, highlight, maxx, maxy)[highlight - ViewStart(highlight, ViewHeight(maxy))].y
      == highlight - ViewStart(highlight, ViewHeight(maxy)) + 3
  {
    ViewportBounds(|nets|, highlight, maxy);
    RowsInWindow(nets, highlight, maxx, maxy);
    OnlyHighlightReversed(nets, highlight, maxx, maxy);
  }

  /** No row other than the highlighted network's is in reverse video. */
  lemma OnlyHighlightReversed(nets: seq<Network>, highlight: nat, maxx: I32, maxy: I32)
    ensures forall k :: 0 <= k < |Rows(nets, highlight, maxx, maxy)| ==>
      (Rows(nets, highlight, maxx, maxy)[k].reverse <==> ViewStart(highlight, ViewHeight(maxy)) + k == highlight)
  {
    if nets != [] {
      var start := ViewStart(highlight, ViewHeight(maxy));
      var securityWidth := MaxSecurityLength(nets);
      RowsBetweenReverse(nets, start, ViewEnd(|nets|, start, ViewHeight(maxy)), highlight,
        NameWidth(maxx, securityWidth), securityWidth);
    }
  }

  /** In the loop's rows, only the highlighted network's row is in reverse video. */
  lemma RowsBetweenReverse(nets: seq<Network>, start: nat, end: nat, highlight: nat, nameWidth: nat, securityWidth: nat)
    requires end <= |nets|
    ensures forall k :: 0 <= k < |RowsBetween(nets, start, end, highlight, nameWidth, securityWidth)| ==>
      (RowsBetween(nets, start, end, highlight, nameWidth, securityWidth)[k].reverse <==> start + k == highlight)
  {
    RowsBetweenAt(nets, start, end, highlight, nameWidth, securityWidth);
  }

  /**
   * Each visible row shows its network: the in-use marker and bold for the
   * active network, and the colour tier of its signal.
   */
  lemma RowStyle(nets: seq<Network>, highlight: nat, maxx: I32, maxy: I32, k: nat)
    requires k < |Rows(nets, highlight, maxx, maxy)|
    ensures nets != [] && ViewStart(highlight, ViewHeight(maxy)) + k < |nets|
    ensures var n := nets[ViewStart(highlight, ViewHeight(maxy)) + k];
      var row := Rows(nets, highlight, maxx, maxy)[k];
      (row.bold <==> n.inUse) &&
      |row.text| >= 2 && row.text[..2] == (if n.inUse then "> " else "  ") &&
      (row.tier == Strong <==> n.signal >= 66) &&
      (row.tier == Medium <==> 33 <= n.signal < 66) &&
      (row.tier == Weak <==> n.signal < 33) &&
      (row.reverse <==> ViewStart(highlight, ViewHeight(maxy)) + k == highlight)
  {
    RowAt(nets, highlight, maxx, maxy, k);
    var start := ViewStart(highlight, ViewHeight(maxy));
    MarkerFirst(nets[start + k], NameWidth(maxx, MaxSecurityLength(nets)), MaxSecurityLength(nets));
  }

  lemma MarkerFirst(n: Network, nameWidth: nat, securityWidth: nat)
    ensures RowText(n, nameWidth, securityWidth)[..2] == Marker(n.inUse)
  {
    var rest := PadRight(FitName(n.ssid, nameWidth), nameWidth) + PadRight(Placeholder(n.security), securityWidth) + "  ";
    assert RowText(n, nameWidth, securityWidth) == Marker(n.inUse) + rest;
  }

  /** A name longer than the column is cut to exactly the column's width, ending in `...`. */
  lemma FitNameTruncates(ssid: string, width: nat)
    requires 3 <= width < UsizeModulus && |Placeholder(ssid)| > width
    ensures FitName(ssid, width) == Placeholder(ssid)[..width - 3] + "..."
    ensures |FitName(ssid, width)| == width
  {
  }

  /** A name that fits is shown whole; an empty one as `---`. */
  lemma FitNameKeeps(ssid: string, width: nat)
    requires |Placeholder(ssid)| <= width
    ensures FitName(ssid, width) == (if ssid == "" then "---" else ssid)
  {
  }

  /**
   * When fewer than 3 columns are left, `max_combined_length - 3` wraps
   * round and `truncate` keeps the whole name, so `...` is appended to it.
   */
  lemma FitNameNarrowWindow(ssid: string, width: nat)
    requires width < 3 && |Placeholder(ssid)| > width
    requires |ssid| <= IsizeMax
    ensures FitName(ssid, width) == Placeholder(ssid) + "..."
  {
  }

  /** A width of 10 shows `VeryLongNetworkName` as `VeryLon...`. */
  lemma TruncationExample()
    ensures FitName("VeryLongNetworkName", 10) == "VeryLon..."
  {
  }

  /**
   * With room for the names, every row has the same width and its columns
   * line up: marker, SSID padded to the name width, security padded to the
   * security width, two spaces.
   */
  lemma RowColumns(n: Network, nameWidth: nat, securityWidth: nat)
    requires 3 <= nameWidth < UsizeModulus
    requires |n.security| <= securityWidth && securityWidth >= 3
    ensures var t := RowText(n, nameWidth, securityWidth);
      |t| == nameWidth + securityWidth + 4 &&
      t[..2] == Marker(n.inUse) &&
      t[2..2 + nameWidth] == PadRight(FitName(n.ssid, nameWidth), nameWidth) &&
      t[2 + nameWidth..2 + nameWidth + securityWidth] == PadRight(Placeholder(n.security), securityWidth) &&
      t[2 + nameWidth + securityWidth..] == "  "
  {
    var name := FitName(n.ssid, nameWidth);
    assert |name| <= nameWidth by {
      if |Placeholder(n.ssid)| > nameWidth { FitNameTruncates(n.ssid, nameWidth); }
    }
    var a := Marker(n.inUse);
    var b := PadRight(name, nameWidth);
    var c := PadRight(Placeholder(n.security), securityWidth);
    assert |a| == 2 && |b| == nameWidth && |c| == securityWidth;
    assert RowText(n, nameWidth, securityWidth) == a + b + c + "  ";
    Columns(a, b, c, "  ");
  }

  /** The pieces of a concatenation of four sequences, recovered by slicing. */
  lemma Columns<T>(a: seq<T>, b: seq<T>, c: seq<T>, d: seq<T>)
    ensures var t := a + b + c + d;
      t[..|a|] == a && t[|a|..|a| + |b|] == b &&
      t[|a| + |b|..|a| + |b| + |c|] == c && t[|a| + |b| + |c|..] == d
  {
    var t := a + b + c + d;
    assert t[..|a|] == a;
    assert t[|a|..|a| + |b|] == b;
    assert t[|a| + |b|..|a| + |b| + |c|] == c;
    assert t[|a| + |b| + |c|..] == d;
  }
}
