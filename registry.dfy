/**
 * The registry of open auxiliary windows (`ContainerAuxiliaryWindow`): a counter
 * of window numbers and a map from number to window, kept across opening,
 * closing, and reading and writing the project.
 */
module Registry {
  import opened LayerList
  import opened WindowSettings
  import opened Window

  /** The plugin's project entry: absent (or empty), or the saved list of windows. */
  datatype ProjectEntry = NoEntry | Entry(settings: seq<WindowSetting>)

  /** No saved window after index `j` and before `end` has the same number as the one at `j`. */
  ghost predicate LastBefore(settings: seq<WindowSetting>, j: nat, end: nat)
    requires j < |settings| && end <= |settings|
  {
    forall j' :: j < j' < end ==> settings[j'].numWin != settings[j].numWin
  }

  /** The setting at index `j` is the last one saved with its number. */
  ghost predicate LastWithNumber(settings: seq<WindowSetting>, j: nat)
    requires j < |settings|
  {
    LastBefore(settings, j, |settings|)
  }

  // ---------------------------------------------------------------------------
  // The running maximum of `onReadProject`
  // ---------------------------------------------------------------------------

  /** The counter `onReadProject` ends with: the largest saved window number, at least 0. */
  function MaxNumWin(settings: seq<WindowSetting>): nat
  {
    if settings == [] then 0
    else
      var m := MaxNumWin(settings[..|settings| - 1]);
      var last := settings[|settings| - 1].numWin;
      if last > m then last else m
  }

  function NumWins(settings: seq<WindowSetting>): set<nat>
  {
    set s | s in settings :: s.numWin
  }

  /** No saved window number exceeds the restored counter. */
  lemma {:induction false} MaxNumWinBounds(settings: seq<WindowSetting>)
    ensures forall k :: k in NumWins(settings) ==> k <= MaxNumWin(settings)
  {
    if settings != [] {
      var init := settings[..|settings| - 1];
      MaxNumWinBounds(init);
      assert settings == init + [settings[|settings| - 1]];
      forall k | k in NumWins(settings) ensures k <= MaxNumWin(settings) {
        var s :| s in settings && s.numWin == k;
        if s != settings[|settings| - 1] {
          assert s in init;
          assert k in NumWins(init);
        }
      }
    }
  }

  /** The restored counter is 0 or the number of a saved window. */
  lemma {:induction false} MaxNumWinAttained(settings: seq<WindowSetting>)
    ensures MaxNumWin(settings) == 0 || MaxNumWin(settings) in NumWins(settings)
  {
    if settings != [] {
      var init := settings[..|settings| - 1];
      MaxNumWinAttained(init);
      if MaxNumWin(settings) != 0 && MaxNumWin(settings) == MaxNumWin(init) {
        var s :| s in init && s.numWin == MaxNumWin(init);
        assert s in settings;
      } else {
        assert settings[|settings| - 1] in settings;
      }
    }
  }

  /**
   * The setting each number ends up with when the saved windows are read in
   * order: one entry per saved number, a later setting replacing an earlier
   * one with the same number.
   */
  function Latest(settings: seq<WindowSetting>): (m: map<nat, WindowSetting>)
    ensures m.Keys == NumWins(settings)
  {
    if settings == [] then map[]
    else
      var init := settings[..|settings| - 1];
      var last := settings[|settings| - 1];
      assert settings == init + [last];
      Latest(init)[last.numWin := last]
  }

  /** Each kept setting is stored under its own number and comes from the saved list. */
  lemma {:induction false} LatestNumbers(settings: seq<WindowSetting>)
    ensures forall k :: k in Latest(settings) ==> Latest(settings)[k].numWin == k && Latest(settings)[k] in settings
  {
    if settings != [] {
      var init := settings[..|settings| - 1];
      LatestNumbers(init);
      assert settings == init + [settings[|settings| - 1]];
    }
  }

  /** The setting kept for a number is the last one saved with that number. */
  lemma {:induction false} LatestIsLast(settings: seq<WindowSetting>, j: nat)
    requires j < |settings| && LastWithNumber(settings, j)
    ensures settings[j].numWin in Latest(settings)
    ensures Latest(settings)[settings[j].numWin] == settings[j]
  {
    var n := |settings| - 1;
    if j < n {
      var init := settings[..n];
      assert settings[n].numWin != settings[j].numWin;
      assert LastWithNumber(init, j) by {
        forall j' | j < j' < n ensures init[j'].numWin != init[j].numWin {
          assert init[j'] == settings[j'];
        }
      }
      LatestIsLast(init, j);
    }
  }

  /** Reading one more saved window updates the running maximum and the kept settings. */
  lemma LoadStep(settings: seq<WindowSetting>, i: nat)
    requires i < |settings|
    ensures MaxNumWin(settings[..i + 1]) ==
      if settings[i].numWin > MaxNumWin(settings[..i]) then settings[i].numWin else MaxNumWin(settings[..i])
    ensures Latest(settings[..i + 1]) == Latest(settings[..i])[settings[i].numWin := settings[i]]
  {
    assert settings[..i + 1] == settings[..i] + [settings[i]];
    assert settings[..i + 1][..i] == settings[..i];
  }

  /**
   * The loop of `onReadProject`: one window per saved setting, built and
   * restored in order and stored under its number, and the running maximum
   * of the numbers.
   */
  method ReadWindows(settings: seq<WindowSetting>, tree: set<LayerId>)
    returns (loaded: map<nat, AuxiliaryWindow>, max: nat)
    requires forall s :: s in settings ==> DecodeLayers(s.layerIds, s.visibles, tree).complete
    ensures max == MaxNumWin(settings)
    ensures loaded.Keys == NumWins(settings)
    ensures forall k :: k in loaded ==> fresh(loaded[k]) && loaded[k].numWin == k
    ensures forall k :: k in loaded ==> loaded[k].State() == Reopened(Latest(settings)[k], tree)
  {
    loaded := map[];
    max := 0;
    var i := 0;
    ghost var latest: map<nat, WindowSetting> := map[];
    while i < |settings|
      invariant 0 <= i <= |settings|
      invariant max == MaxNumWin(settings[..i])
      invariant forall k :: k in loaded ==> fresh(loaded[k])
      invariant latest == Latest(settings[..i]) && loaded.Keys == latest.Keys
      invariant forall k :: k in loaded ==> loaded[k].State() == Reopened(latest[k], tree)
    {
      var s := settings[i];
      assert s in settings;
      var w := OpenSaved(s, tree);
      loaded := loaded[s.numWin := w];
      latest := latest[s.numWin := s];
      if s.numWin > max {
        max := s.numWin;
      }
      LoadStep(settings, i);
      i := i + 1;
    }
    assert settings[..i] == settings;
    LatestNumbers(settings);
  }

  /** Taking one more key out of `pending` adds it to the keys already taken. */
  lemma TakeKey(all: set<nat>, pending: set<nat>, k: nat)
    requires pending <= all && k in pending
    ensures all - (pending - {k}) == (all - pending) + {k}
    ensures |all - (pending - {k})| == |all - pending| + 1
  {
    assert all - (pending - {k}) == (all - pending) + {k};
  }

  /** One more saved setting adds its number to the saved numbers. */
  lemma NumWinsAppend(settings: seq<WindowSetting>, s: WindowSetting)
    ensures NumWins(settings + [s]) == NumWins(settings) + {s.numWin}
  {
  }

  class ContainerAuxiliaryWindow {
    var numWin: nat
    var windows: map<nat, AuxiliaryWindow>

    /** Every registered number has been handed out, and each window knows its own number. */
    ghost predicate Valid()
      reads this, windows.Values
    {
      && (forall k :: k in windows ==> k <= numWin)
      && (forall k :: k in windows ==> windows[k].numWin == k)
    }

    constructor ()
      ensures Valid() && numWin == 0 && windows == map[]
    {
      numWin := 0;
      windows := map[];
    }

    /**
     * `run`: opens a window under the next number. When the window does not
     * start, its entry is deleted and the counter put back, so the registry is
     * as before; `started` is false exactly when the source pushes its
     * "Need selected layers" message.
     */
    method Run(parentGeometry: Geometry, selected: seq<LayerId>, current: CurrentNode, mainExtent: Rect)
      returns (started: bool)
      requires Valid()
      modifies this
      ensures Valid()
      ensures started <==> selected != [] || (current.Group? && current.layers != [])
      ensures started ==> (
        && numWin == old(numWin) + 1
        && numWin !in old(windows)
        && windows.Keys == old(windows).Keys + {numWin}
        && (forall k :: k in old(windows) ==> windows[k] == old(windows)[k])
        && fresh(windows[numWin])
        && windows[numWin].geometry == parentGeometry
        && windows[numWin].canvasExtent == mainExtent
        && windows[numWin].ltg ==
             NewNodes(Appended(if selected != [] then selected else current.layers, {})))
      ensures !started ==> numWin == old(numWin) && windows == old(windows)
    {
      numWin := numWin + 1;
      var w := new AuxiliaryWindow(parentGeometry, numWin);
      windows := windows[numWin := w];
      var ok := w.Run(selected, current, mainExtent);
      assert IdSet([]) == {};
      if !ok {
        windows := windows - {numWin};
        numWin := numWin - 1;
        assert windows == old(windows);
        started := false;
      } else {
        started := true;
      }
    }

    /** `onClosed`: a closed window leaves the registry; nothing else changes. */
    method OnClosed(k: nat)
      requires Valid() && k in windows
      modifies this`windows
      ensures Valid()
      ensures windows == old(windows) - {k}
    {
      windows := windows - {k};
    }

    /** `close`: every window closes, and each one's closing removes its own entry. */
    method Close()
      requires Valid()
      modifies this`windows
      ensures Valid()
      ensures windows == map[]
    {
      var keys := windows.Keys;
      while keys != {}
        invariant Valid()
        invariant keys == windows.Keys
        decreases keys
      {
        var k :| k in keys;
        var w := windows[k];
        OnClosed(w.numWin);
        keys := keys - {k};
      }
    }

    /**
     * `onReadProject`: when the project holds the plugin's entry, the open
     * windows close, one window is rebuilt per saved setting (a later setting
     * with the same number replaces an earlier one), and the counter becomes the
     * largest saved number, or 0.
     */
    method OnReadProject(entry: ProjectEntry, tree: set<LayerId>)
      requires Valid()
      requires entry.Entry? ==>
        forall s :: s in entry.settings ==> DecodeLayers(s.layerIds, s.visibles, tree).complete
      modifies this
      ensures Valid()
      ensures entry.NoEntry? ==> numWin == old(numWin) && windows == old(windows)
      ensures entry.Entry? ==> (
        && numWin == MaxNumWin(entry.settings)
        && windows.Keys == NumWins(entry.settings)
        && (forall k :: k in windows ==> fresh(windows[k]))
        && (forall k :: k in windows ==> windows[k].State() == Reopened(Latest(entry.settings)[k], tree)))
    {
      if entry.NoEntry? {
        return;
      }
      var settings := entry.settings;
      if |windows| > 0 {
        Close();
      }
      var loaded, max := ReadWindows(settings, tree);
      MaxNumWinBounds(settings);
      windows := loaded;
      numWin := max;
    }

    /**
     * `onWriteProject`: no open window removes the entry; otherwise the entry
     * holds exactly one setting per open window.
     */
    method OnWriteProject() returns (entry: ProjectEntry)
      requires Valid()
      ensures windows == map[] <==> entry == NoEntry
      ensures entry.Entry? ==> (
        && |entry.settings| == |windows|
        && NumWins(entry.settings) == windows.Keys
        && (forall s :: s in entry.settings ==>
              s.numWin in windows && s == windows[s.numWin].GetWindowSetting()))
    {
      var windowsSetting: seq<WindowSetting> := [];
      var pending := windows.Keys;
      while pending != {}
        invariant pending <= windows.Keys
        invariant NumWins(windowsSetting) == windows.Keys - pending
        invariant |windowsSetting| == |windows.Keys - pending|
        invariant forall s :: s in windowsSetting ==>
                    s.numWin in windows && s == windows[s.numWin].GetWindowSetting()
        decreases pending
      {
        var k :| k in pending;
        var s := windows[k].GetWindowSetting();
        TakeKey(windows.Keys, pending, k);
        NumWinsAppend(windowsSetting, s);
        windowsSetting := windowsSetting + [s];
        pending := pending - {k};
      }
      if |windowsSetting| == 0 {
        entry := NoEntry;
      } else {
        entry := Entry(windowsSetting);
      }
    }
  }
}
