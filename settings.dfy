/**
 * The record a window saves into the project (`getWindowSetting`) and the pure
 * part of reading it back (`setWindowSetting`): layer ids and visibility flags
 * packed into space-joined strings, the three toggles packed as integers, and
 * the outline of the main map's extent.
 */
module WindowSettings {
  import opened Wrappers
  import opened LayerList

  /** A window rectangle on screen (`QRect`). */
  datatype Geometry = Geometry(x: int, y: int, width: int, height: int)

  /** A map rectangle (`QgsRectangle`). */
  datatype Rect = Rect(xmin: real, ymin: real, xmax: real, ymax: real)

  datatype Point = Point(x: real, y: real)

  /** One saved window, with the keys the source writes. */
  datatype WindowSetting = WindowSetting(
    numWin: nat,
    geometryWin: Geometry,
    extentCanvas: Rect,
    currentLayerId: string,
    layerIds: string,
    visibles: string,
    render: int,
    marker: int,
    extent: int)

  /** What `currentLayerId` holds when the legend has no current layer. */
  const NO_CURRENT_LAYER: string := "None"

  /** The separator of `layerIds` and `visibles`. */
  const SEPARATOR: char := ' '

  // ---------------------------------------------------------------------------
  // Python's str.join and str.split with a one-character separator
  // ---------------------------------------------------------------------------

  /** `sep.join(parts)`. */
  function Join(parts: seq<string>, sep: char): string
  {
    if |parts| == 0 then ""
    else if |parts| == 1 then parts[0]
    else parts[0] + [sep] + Join(parts[1..], sep)
  }

  /** `s.split(sep)`: never empty; in particular the empty string splits into `[""]`. */
  function Split(s: string, sep: char): (parts: seq<string>)
    ensures |parts| >= 1
    ensures |parts| == 1 <==> sep !in s
  {
    if |s| == 0 then [""]
    else
      var rest := Split(s[1..], sep);
      if s[0] == sep then [""] + rest
      else [[s[0]] + rest[0]] + rest[1..]
  }

  /** Splitting a piece that has no separator, followed by anything, keeps the piece whole. */
  lemma {:induction false} SplitPrefix(p: string, t: string, sep: char)
    requires sep !in p
    ensures Split(p + t, sep) == [p + Split(t, sep)[0]] + Split(t, sep)[1..]
  {
    if p == [] {
      assert p + t == t;
      var parts := Split(t, sep);
      assert p + parts[0] == parts[0];
      assert parts == [parts[0]] + parts[1..];
    } else {
      assert (p + t)[0] == p[0] && (p + t)[1..] == p[1..] + t;
      SplitPrefix(p[1..], t, sep);
      assert [p[0]] + (p[1..] + Split(t, sep)[0]) == p + Split(t, sep)[0];
    }
  }

  /** `s.split(sep)` undoes `sep.join(parts)` for a non-empty list of pieces without `sep`. */
  lemma {:induction false} SplitJoin(parts: seq<string>, sep: char)
    requires |parts| >= 1
    requires forall i :: 0 <= i < |parts| ==> sep !in parts[i]
    ensures Split(Join(parts, sep), sep) == parts
  {
    if |parts| == 1 {
      SplitPrefix(parts[0], "", sep);
      assert parts[0] + "" == parts[0];
    } else {
      var more := Join(parts[1..], sep);
      SplitJoin(parts[1..], sep);
      assert parts[0] + [sep] + more == parts[0] + ([sep] + more);
      SplitPrefix(parts[0], [sep] + more, sep);
      assert ([sep] + more)[1..] == more;
      assert Split([sep] + more, sep) == [""] + parts[1..];
      assert parts[0] + "" == parts[0];
    }
  }

  /** Joining a piece in front of at least one more piece puts a separator between them. */
  lemma JoinCons(p: string, rest: seq<string>, sep: char)
    requires |rest| >= 1
    ensures Join([p] + rest, sep) == p + [sep] + Join(rest, sep)
  {
    assert ([p] + rest)[1..] == rest;
  }

  /** `split` cuts the text at separators only: joining the pieces gives it back. */
  lemma {:induction false} JoinSplit(s: string, sep: char)
    ensures Join(Split(s, sep), sep) == s
  {
    if s != "" {
      JoinSplit(s[1..], sep);
      if s[0] == sep {
        JoinSplitAtSeparator(s, sep);
      } else {
        JoinSplitInPiece(s, sep);
      }
    }
  }

  /** The step of `JoinSplit` when the text starts with the separator. */
  lemma JoinSplitAtSeparator(s: string, sep: char)
    requires s != "" && s[0] == sep
    requires Join(Split(s[1..], sep), sep) == s[1..]
    ensures Join(Split(s, sep), sep) == s
  {
    var rest := Split(s[1..], sep);
    assert Split(s, sep) == [""] + rest;
    JoinCons("", rest, sep);
    assert s == [sep] + s[1..];
  }

  /** The step of `JoinSplit` when the text starts inside a piece. */
  lemma JoinSplitInPiece(s: string, sep: char)
    requires s != "" && s[0] != sep
    requires Join(Split(s[1..], sep), sep) == s[1..]
    ensures Join(Split(s, sep), sep) == s
  {
    var tail := s[1..];
    var rest := Split(tail, sep);
    var parts := Split(s, sep);
    assert parts == [[s[0]] + rest[0]] + rest[1..];
    assert s == [s[0]] + tail;
    if |rest| == 1 {
      assert parts == [[s[0]] + rest[0]];
    } else {
      var more := Join(rest[1..], sep);
      JoinCons([s[0]] + rest[0], rest[1..], sep);
      JoinCons(rest[0], rest[1..], sep);
      assert [rest[0]] + rest[1..] == rest;
      assert tail == rest[0] + [sep] + more;
    }
  }

  /** `split` cuts at every separator: no piece holds one. */
  lemma {:induction false} SplitPiecesFree(s: string, sep: char)
    ensures forall i :: 0 <= i < |Split(s, sep)| ==> sep !in Split(s, sep)[i]
  {
    if s != "" {
      var rest := Split(s[1..], sep);
      SplitPiecesFree(s[1..], sep);
      var parts := Split(s, sep);
      forall i | 0 <= i < |parts| ensures sep !in parts[i] {
        if s[0] == sep {
          if i > 0 {
            assert parts[i] == rest[i - 1];
          }
        } else if i > 0 {
          assert parts[i] == rest[i];
        } else {
          assert sep !in rest[0];
        }
      }
    }
  }

  /** The joined text of non-empty pieces is empty only when there are no pieces. */
  lemma JoinEmpty(parts: seq<string>, sep: char)
    requires forall i :: 0 <= i < |parts| ==> parts[i] != ""
    ensures Join(parts, sep) == "" <==> parts == []
  {
    if |parts| >= 2 {
      assert |Join(parts, sep)| >= |parts[0]|;
    }
  }

  /**
   * `s.split(sep)` on a list that may be empty: the empty string stands for the
   * empty list (what `s.split()` does), any other string splits as `Split`.
   */
  function SplitList(s: string, sep: char): (parts: seq<string>)
    ensures Join(parts, sep) == s
    ensures forall i :: 0 <= i < |parts| ==> sep !in parts[i]
    ensures parts == [] <==> s == ""
  {
    if s == "" then [] else JoinSplit(s, sep); SplitPiecesFree(s, sep); Split(s, sep)
  }

  /** `SplitList` undoes `Join` for every list of non-empty pieces without `sep`, the empty list included. */
  lemma SplitListJoin(parts: seq<string>, sep: char)
    requires forall i :: 0 <= i < |parts| ==> parts[i] != "" && sep !in parts[i]
    ensures SplitList(Join(parts, sep), sep) == parts
  {
    JoinEmpty(parts, sep);
    if parts != [] {
      SplitJoin(parts, sep);
    }
  }

  // ---------------------------------------------------------------------------
  // Python's int() on a piece of text and the flags it encodes
  // ---------------------------------------------------------------------------

  predicate IsDigits(s: string)
  {
    |s| > 0 && forall i :: 0 <= i < |s| ==> '0' <= s[i] <= '9'
  }

  function DigitsValue(s: string): nat
    requires IsDigits(s) || s == ""
  {
    if s == "" then 0
    else DigitsValue(s[..|s| - 1]) * 10 + (s[|s| - 1] as int - '0' as int)
  }

  /** `int(s)`: an optional sign and decimal digits; anything else (the empty text too) raises. */
  function ParseInt(s: string): (r: Option<int>)
    ensures r.Some? ==> s != ""
  {
    if |s| > 0 && (s[0] == '-' || s[0] == '+') then
      if IsDigits(s[1..]) then
        var magnitude: int := DigitsValue(s[1..]);
        Some(if s[0] == '-' then -magnitude else magnitude)
      else None
    else if IsDigits(s) then Some(DigitsValue(s))
    else None
  }

  /** `Qt.Unchecked` and `Qt.Checked`: the check states a layer node's visibility takes. */
  const UNCHECKED: int := 0
  const CHECKED: int := 2

  /**
   * `str(int(node.isVisible()))`: a layer node's visibility is a check state, so a
   * visible layer is saved as `"2"` and a hidden one as `"0"`.
   */
  function FlagText(b: bool): string
  {
    if b then "2" else "0"
  }

  function FlagTexts(flags: seq<bool>): seq<string>
  {
    seq(|flags|, i requires 0 <= i < |flags| => FlagText(flags[i]))
  }

  /**
   * `map(lambda item: bool(int(item)), parts)`: fails as a whole when one piece is
   * not an integer; otherwise each flag is whether its piece's integer is nonzero.
   */
  function ParseFlags(parts: seq<string>): (r: Option<seq<bool>>)
    ensures r.Some? ==> |r.value| == |parts|
    ensures r.Some? ==> forall i :: 0 <= i < |parts| ==> ParseInt(parts[i]).Some?
  {
    if parts == [] then Some([])
    else match ParseInt(parts[0])
      case None => None
      case Some(v) =>
        match ParseFlags(parts[1..])
        case None => None
        case Some(rest) => Some([v != 0] + rest)
  }

  /**
   * What `ParseFlags` computes: it succeeds exactly when every piece is an integer,
   * and then each flag is whether its piece's integer is nonzero.
   */
  lemma {:induction false} ParseFlagsMeaning(parts: seq<string>)
    ensures ParseFlags(parts).Some? <==> forall i :: 0 <= i < |parts| ==> ParseInt(parts[i]).Some?
    ensures ParseFlags(parts).Some? ==>
      forall i :: 0 <= i < |parts| ==> ParseFlags(parts).value[i] == (ParseInt(parts[i]).value != 0)
  {
    if parts != [] {
      var rest := parts[1..];
      ParseFlagsMeaning(rest);
      assert forall i :: 1 <= i < |parts| ==> parts[i] == rest[i - 1];
    }
  }

  /** Every flag comes back from its saved text. */
  lemma ParseFlagTexts(flags: seq<bool>)
    ensures ParseFlags(FlagTexts(flags)) == Some(flags)
  {
    var texts := FlagTexts(flags);
    forall i | 0 <= i < |texts|
      ensures ParseInt(texts[i]) == Some(if flags[i] then CHECKED else UNCHECKED)
    {
      ParseFlagText(flags[i]);
    }
    ParseFlagsMeaning(texts);
    var r := ParseFlags(texts);
    assert r.value == flags;
  }

  /** A saved visibility reads back as its check state, nonzero exactly when visible. */
  lemma ParseFlagText(b: bool)
    ensures ParseInt(FlagText(b)) == Some(if b then CHECKED else UNCHECKED)
  {
    var t := FlagText(b);
    assert IsDigits(t) && t[..|t| - 1] == "";
    assert t[0] != '-' && t[0] != '+';
    assert DigitsValue(t) == t[0] as int - '0' as int;
  }

  /** `int(b)` for a check box state. */
  function ToggleValue(b: bool): (v: int)
    ensures v == 0 || v == 1
    ensures (v != 0) == b
  {
    if b then 1 else 0
  }

  // ---------------------------------------------------------------------------
  // Layers: encoding (`getWindowSetting`) and decoding (`setWindowSetting`)
  // ---------------------------------------------------------------------------

  /** Ids the host gives layers: non-empty and without spaces. */
  ghost predicate ValidIds(nodes: seq<LayerNode>)
  {
    forall i :: 0 <= i < |nodes| ==> nodes[i].id != "" && SEPARATOR !in nodes[i].id
  }

  function Visibles(nodes: seq<LayerNode>): seq<bool>
  {
    seq(|nodes|, i requires 0 <= i < |nodes| => nodes[i].visible)
  }

  /** The saved `layerIds`: the window's layer ids joined by spaces. */
  function LayerIdsText(nodes: seq<LayerNode>): string
  {
    Join(Ids(nodes), SEPARATOR)
  }

  /** The saved `visibles`: one check state (`0` or `2`) per layer, in the same order, joined by spaces. */
  function VisiblesText(nodes: seq<LayerNode>): string
  {
    Join(FlagTexts(Visibles(nodes)), SEPARATOR)
  }

  /**
   * The outcome of restoring layers: the nodes added to the window, and whether
   * the restoration ran to the end (`false`: the source raises at that point,
   * after adding `nodes`).
   */
  datatype Restore = Restore(nodes: seq<LayerNode>, complete: bool)

  /**
   * The loop of `setWindowSetting` from position `i` on: an id the main layer
   * tree `tree` does not hold is skipped; a found id takes the flag at the same
   * position, and a missing flag raises.
   */
  function RestoreFrom(ids: seq<LayerId>, flags: seq<bool>, tree: set<LayerId>, i: nat): (r: Restore)
    decreases |ids| - i
    ensures forall n :: n in r.nodes ==> n.id in tree
  {
    if i >= |ids| then Restore([], true)
    else if ids[i] !in tree then RestoreFrom(ids, flags, tree, i + 1)
    else if i >= |flags| then Restore([], false)
    else
      var rest := RestoreFrom(ids, flags, tree, i + 1);
      Restore([LayerNode(ids[i], flags[i])] + rest.nodes, rest.complete)
  }

  /** The layers of a window that the main layer tree still holds, in order. */
  function InTree(nodes: seq<LayerNode>, tree: set<LayerId>): seq<LayerNode>
  {
    if nodes == [] then []
    else if nodes[0].id in tree then [nodes[0]] + InTree(nodes[1..], tree)
    else InTree(nodes[1..], tree)
  }

  /**
   * Decoding as the source does it: `visibles.split(' ')` and `layerIds.split(' ')`,
   * so the empty text of a window without layers becomes `[""]` and `int("")` raises.
   */
  function DecodeLayersAsWritten(layerIds: string, visibles: string, tree: set<LayerId>): Restore
  {
    match ParseFlags(Split(visibles, SEPARATOR))
    case None => Restore([], false)
    case Some(flags) => RestoreFrom(Split(layerIds, SEPARATOR), flags, tree, 0)
  }

  /** Decoding with the empty text read as the empty list; the rest as the source does it. */
  function DecodeLayers(layerIds: string, visibles: string, tree: set<LayerId>): Restore
  {
    match ParseFlags(SplitList(visibles, SEPARATOR))
    case None => Restore([], false)
    case Some(flags) => RestoreFrom(SplitList(layerIds, SEPARATOR), flags, tree, 0)
  }

  lemma {:induction false} RestoreFromSaved(nodes: seq<LayerNode>, tree: set<LayerId>, i: nat)
    requires i <= |nodes|
    decreases |nodes| - i
    ensures RestoreFrom(Ids(nodes), Visibles(nodes), tree, i) == Restore(InTree(nodes[i..], tree), true)
  {
    if i < |nodes| {
      RestoreFromSaved(nodes, tree, i + 1);
      assert nodes[i..][0] == nodes[i] && nodes[i..][1..] == nodes[i + 1..];
    }
  }

  /**
   * Round trip of a window's layers: decoding what `getWindowSetting` wrote gives
   * back the window's layers that the main tree still holds, in the same order and
   * with the same visibility, and runs to the end.
   */
  lemma LayersRoundTrip(nodes: seq<LayerNode>, tree: set<LayerId>)
    requires ValidIds(nodes)
    ensures DecodeLayers(LayerIdsText(nodes), VisiblesText(nodes), tree) == Restore(InTree(nodes, tree), true)
  {
    SplitListJoin(Ids(nodes), SEPARATOR);
    var texts := FlagTexts(Visibles(nodes));
    SplitListJoin(texts, SEPARATOR);
    ParseFlagTexts(Visibles(nodes));
    RestoreFromSaved(nodes, tree, 0);
    assert nodes[0..] == nodes;
  }

  /** Layers the main tree holds are all kept. */
  lemma {:induction false} InTreeAll(nodes: seq<LayerNode>, tree: set<LayerId>)
    requires IdSet(nodes) <= tree
    ensures InTree(nodes, tree) == nodes
  {
    if nodes != [] {
      assert nodes[0] in nodes;
      assert IdSet(nodes[1..]) <= tree by {
        forall n | n in nodes[1..] ensures n.id in tree {
          assert n in nodes;
        }
      }
      InTreeAll(nodes[1..], tree);
    }
  }

  /** The source's decoding fails on what it wrote for a window without layers. */
  lemma EmptyWindowDoesNotRestore(tree: set<LayerId>)
    ensures !DecodeLayersAsWritten(LayerIdsText([]), VisiblesText([]), tree).complete
  {
    assert FlagTexts(Visibles([])) == [];
    assert Split("", SEPARATOR) == [""];
    assert ParseInt("") == None;
  }

  /** On a window with at least one layer the source's decoding and the corrected one agree. */
  lemma AsWrittenAgreesWhenNotEmpty(nodes: seq<LayerNode>, tree: set<LayerId>)
    requires ValidIds(nodes) && nodes != []
    ensures DecodeLayersAsWritten(LayerIdsText(nodes), VisiblesText(nodes), tree)
         == DecodeLayers(LayerIdsText(nodes), VisiblesText(nodes), tree)
  {
    JoinEmpty(Ids(nodes), SEPARATOR);
    JoinEmpty(FlagTexts(Visibles(nodes)), SEPARATOR);
  }

  /**
   * The two decodings differ only on an empty text: whenever both saved texts are
   * non-empty, the corrected decoding is the source's.
   */
  lemma AsWrittenAgreesOnNonEmptyText(layerIds: string, visibles: string, tree: set<LayerId>)
    requires layerIds != "" && visibles != ""
    ensures DecodeLayersAsWritten(layerIds, visibles, tree) == DecodeLayers(layerIds, visibles, tree)
  {
  }

  // ---------------------------------------------------------------------------
  // The extent outline (`_extent`)
  // ---------------------------------------------------------------------------

  function Corners(r: Rect): set<Point>
  {
    {Point(r.xmin, r.ymin), Point(r.xmin, r.ymax), Point(r.xmax, r.ymax), Point(r.xmax, r.ymin)}
  }

  /**
   * The polyline drawn around the main map's extent: it starts at the lower-left
   * corner, visits the four corners going up the left side first, and is closed.
   */
  function ExtentRing(r: Rect): (ring: seq<Point>)
    ensures |ring| == 5 && ring[0] == ring[4]
    ensures ring[0] == Point(r.xmin, r.ymin) && ring[1].x == r.xmin && ring[1].y == r.ymax
    ensures {ring[0], ring[1], ring[2], ring[3]} == Corners(r)
    ensures forall i :: 0 <= i < 4 ==> ring[i].x == ring[i + 1].x || ring[i].y == ring[i + 1].y
  {
    [Point(r.xmin, r.ymin), Point(r.xmin, r.ymax), Point(r.xmax, r.ymax),
     Point(r.xmax, r.ymin), Point(r.xmin, r.ymin)]
  }
}
