/**
 * One auxiliary window (`AuxiliaryWindow`): its layer list, the optional group of
 * the main map it follows ("sync group"), the three check boxes of its status
 * bar, and the messages it pushes to its message bar. Widgets, canvases and
 * signal wiring are the host's and are not part of this model.
 */
module Window {
  import opened Wrappers
  import opened LayerList
  import opened WindowSettings

  /** A group node of the main map's layer tree, as an opaque handle. */
  type GroupId = nat

  /** The messages the window pushes to its message bar. */
  datatype Message =
    | NeedNewLayers                    // "Need select new layer(s) in main map"
    | AlreadySynchronized(group: GroupId)
    | ChangedSyncGroup(group: GroupId)
    | RemovedSyncGroup
    | NeedActiveGroup                  // "Need active a group in main map with new layers"

  /** The current node of the main map's layer tree when no layer is selected. */
  datatype CurrentNode =
    | NotAGroup                        // no current node, or a layer node
    | RootGroup
    | Group(group: GroupId, layers: seq<LayerId>)   // `layers`: what `findLayers()` yields

  /** The fields of a window, as a value. */
  datatype WindowState = WindowState(
    numWin: nat,
    geometry: Geometry,
    canvasExtent: Rect,
    ltg: seq<LayerNode>,
    qgisSyncGroup: Option<GroupId>,
    currentLayer: Option<LayerId>,
    render: bool,
    marker: bool,
    extent: bool,
    messages: seq<Message>)

  /**
   * What `setWindowSetting(s)` leaves in a new window when the main layer tree
   * holds the layers `tree` and the saved layers decode completely.
   */
  ghost function Reopened(s: WindowSetting, tree: set<LayerId>): WindowState
  {
    var layers := DecodeLayers(s.layerIds, s.visibles, tree).nodes;
    WindowState(
      s.numWin, s.geometryWin, s.extentCanvas, layers, None,
      if s.currentLayerId in tree && s.currentLayerId in IdSet(layers) then Some(s.currentLayerId) else None,
      s.render != 0, s.marker != 0, s.extent != 0, [])
  }

  /** The extent of a canvas that has not been given one. */
  const EMPTY_RECT: Rect := Rect(0.0, 0.0, 0.0, 0.0)

  class AuxiliaryWindow {
    var numWin: nat
    var geometry: Geometry
    var canvasExtent: Rect
    var ltg: seq<LayerNode>
    var qgisSyncGroup: Option<GroupId>
    var currentLayer: Option<LayerId>
    var render: bool
    var marker: bool
    var extent: bool
    var messages: seq<Message>

    /** A new window: no layers, no sync group, rendering on, marker and extent off. */
    constructor (geometryWin: Geometry, numWin: nat)
      ensures this.numWin == numWin && geometry == geometryWin && canvasExtent == EMPTY_RECT
      ensures ltg == [] && qgisSyncGroup == None && currentLayer == None
      ensures render && !marker && !extent && messages == []
    {
      this.numWin := numWin;
      geometry := geometryWin;
      canvasExtent := EMPTY_RECT;
      ltg := [];
      qgisSyncGroup := None;
      currentLayer := None;
      render, marker, extent := true, false, false;
      messages := [];
    }

    /**
     * `_addLayersQgis`: appends the requested layers the window does not show yet,
     * in request order; when there is none, warns if `needMsg`.
     */
    method AddLayers(request: seq<LayerId>, needMsg: bool)
      modifies this`ltg, this`messages
      ensures ltg == old(ltg) + NewNodes(Appended(request, IdSet(old(ltg))))
      ensures messages == old(messages) +
        (if needMsg && Appended(request, IdSet(old(ltg))) == [] then [NeedNewLayers] else [])
    {
      var present := IdSet(ltg);
      var layers := ToSet(request) - present;
      AppendedNothing(request, present);
      if |layers| == 0 {
        assert layers == {};
        assert ToSet(request) <= present by {
          forall x | x in ToSet(request) ensures x in present {
            assert x !in layers;
          }
        }
        if needMsg {
          messages := messages + [NeedNewLayers];
        }
      } else {
        ghost var x :| x in layers;
        assert !(ToSet(request) <= present);
        ghost var start := ltg;
        var i := 0;
        while i < |request|
          invariant 0 <= i <= |request|
          invariant ltg == start + NewNodes(Appended(request[..i], present))
          invariant messages == old(messages)
        {
          assert request[..i + 1] == request[..i] + [request[i]];
          AppendedConcat(request[..i], [request[i]], present);
          assert Appended([request[i]], present) == if request[i] in present then [] else [request[i]];
          var done := Appended(request[..i], present);
          if request[i] in layers {
            ltg := ltg + [LayerNode(request[i], true)];
            assert NewNodes(done + [request[i]]) == NewNodes(done) + [LayerNode(request[i], true)];
          } else {
            assert done + [] == done;
          }
          i := i + 1;
        }
        assert request[..i] == request;
      }
    }

    /**
     * `onLayersWillBeRemoved`: for every id the host is deleting that the window
     * shows, removes the first node showing it. When the current layer is no
     * longer shown, the legend view moves its current index; which layer it picks
     * (`hostCurrent`, a layer still shown, or none) is the view's choice.
     */
    method RemoveLayers(theLayerIds: seq<LayerId>, hostCurrent: Option<LayerId>)
      requires hostCurrent.Some? ==> hostCurrent.value in IdSet(Without(ltg, ToSet(theLayerIds)))
      modifies this`ltg, this`currentLayer
      ensures ltg == Without(old(ltg), ToSet(theLayerIds))
      ensures old(currentLayer).Some? && old(currentLayer).value in IdSet(ltg) ==> currentLayer == old(currentLayer)
      ensures !(old(currentLayer).Some? && old(currentLayer).value in IdSet(ltg)) ==> currentLayer == hostCurrent
      ensures currentLayer.Some? ==> currentLayer.value in IdSet(ltg)
    {
      var ids := IdSet(ltg) * ToSet(theLayerIds);
      WithoutOnlyShownIds(ltg, ToSet(theLayerIds), ids);
      var pending := ids;
      while pending != {}
        invariant Without(ltg, pending) == Without(old(ltg), ids)
        invariant currentLayer == old(currentLayer)
        decreases pending
      {
        var id :| id in pending;
        WithoutRemoveFirst(ltg, pending, id);
        ltg := RemoveFirst(ltg, id);
        pending := pending - {id};
      }
      WithoutNothing(ltg);
      if !(currentLayer.Some? && currentLayer.value in IdSet(ltg)) {
        currentLayer := hostCurrent;
      }
    }

    /**
     * `_syncGroupAddLayersQgis`: a group without layers is refused; the current
     * sync group is acknowledged; any other group becomes the sync group and its
     * layers are added.
     */
    method SyncGroupAddLayers(group: GroupId, layers: seq<LayerId>) returns (ok: bool)
      modifies this`ltg, this`qgisSyncGroup, this`messages
      ensures ok <==> layers != []
      ensures layers == [] ==>
        ltg == old(ltg) && qgisSyncGroup == old(qgisSyncGroup) && messages == old(messages)
      ensures layers != [] && old(qgisSyncGroup) == Some(group) ==>
        ltg == old(ltg) && qgisSyncGroup == old(qgisSyncGroup) &&
        messages == old(messages) + [AlreadySynchronized(group)]
      ensures layers != [] && old(qgisSyncGroup) != Some(group) ==>
        qgisSyncGroup == Some(group) &&
        ltg == old(ltg) + NewNodes(Appended(layers, IdSet(old(ltg)))) &&
        messages == old(messages) + [ChangedSyncGroup(group)] +
          (if Appended(layers, IdSet(old(ltg))) == [] then [NeedNewLayers] else [])
    {
      if |layers| == 0 {
        return false;
      }
      if qgisSyncGroup == Some(group) {
        messages := messages + [AlreadySynchronized(group)];
        return true;
      }
      qgisSyncGroup := Some(group);
      messages := messages + [ChangedSyncGroup(group)];
      AddLayers(layers, true);
      return true;
    }

    /**
     * `onRemovedChildrenQgisRoot`: forgets the sync group once it is no longer a
     * child of the main tree's root (`rootChildren`).
     */
    method OnRemovedChildrenQgisRoot(rootChildren: set<GroupId>)
      modifies this`qgisSyncGroup, this`messages
      ensures old(qgisSyncGroup).Some? && old(qgisSyncGroup).value !in rootChildren ==>
        qgisSyncGroup == None && messages == old(messages) + [RemovedSyncGroup]
      ensures !(old(qgisSyncGroup).Some? && old(qgisSyncGroup).value !in rootChildren) ==>
        qgisSyncGroup == old(qgisSyncGroup) && messages == old(messages)
    {
      if qgisSyncGroup.Some? && qgisSyncGroup.value !in rootChildren {
        qgisSyncGroup := None;
        messages := messages + [RemovedSyncGroup];
      }
    }

    /** `onAddSelectedLayersQgis`: adds the layers selected in the main map, warning when none is new. */
    method OnAddSelectedLayers(selected: seq<LayerId>)
      modifies this`ltg, this`messages
      ensures ltg == old(ltg) + NewNodes(Appended(selected, IdSet(old(ltg))))
      ensures messages == old(messages) +
        (if Appended(selected, IdSet(old(ltg))) == [] then [NeedNewLayers] else [])
    {
      AddLayers(selected, true);
    }

    /**
     * `addedChildrenLayer`: when children are added below the sync group, the
     * layers of the group node the signal names (the sync group or one of its
     * subgroups), `groupLayers`, are added here, without a warning.
     */
    method AddedChildrenLayer(groupLayers: seq<LayerId>)
      modifies this`ltg, this`messages
      ensures ltg == old(ltg) + NewNodes(Appended(groupLayers, IdSet(old(ltg))))
      ensures messages == old(messages)
    {
      AddLayers(groupLayers, false);
    }

    /**
     * `onSyncGroupAddLayersQgis`: synchronizes with the current node of the main
     * tree; a node that is not a group, the root, or a group without layers is
     * refused with a warning.
     */
    method OnSyncGroupAddLayers(current: CurrentNode)
      modifies this`ltg, this`qgisSyncGroup, this`messages
      ensures !(current.Group? && current.layers != []) ==>
        ltg == old(ltg) && qgisSyncGroup == old(qgisSyncGroup) &&
        messages == old(messages) + [NeedActiveGroup]
      ensures current.Group? && current.layers != [] && old(qgisSyncGroup) == Some(current.group) ==>
        ltg == old(ltg) && qgisSyncGroup == old(qgisSyncGroup) &&
        messages == old(messages) + [AlreadySynchronized(current.group)]
      ensures current.Group? && current.layers != [] && old(qgisSyncGroup) != Some(current.group) ==>
        qgisSyncGroup == Some(current.group) &&
        ltg == old(ltg) + NewNodes(Appended(current.layers, IdSet(old(ltg)))) &&
        messages == old(messages) + [ChangedSyncGroup(current.group)] +
          (if Appended(current.layers, IdSet(old(ltg))) == [] then [NeedNewLayers] else [])
    {
      if !current.Group? {
        messages := messages + [NeedActiveGroup];
        return;
      }
      var synced := SyncGroupAddLayers(current.group, current.layers);
      if !synced {
        messages := messages + [NeedActiveGroup];
      }
    }

    /**
     * `run`: starts the window from the layers selected in the main map or, when
     * none is selected, from the current group; the canvas then takes the main
     * map's extent. Fails when neither gives a layer.
     */
    method Run(selected: seq<LayerId>, current: CurrentNode, mainExtent: Rect) returns (ok: bool)
      modifies this`ltg, this`qgisSyncGroup, this`messages, this`canvasExtent
      ensures ok <==> selected != [] || (current.Group? && current.layers != [])
      ensures selected != [] ==>
        ltg == old(ltg) + NewNodes(Appended(selected, IdSet(old(ltg)))) &&
        qgisSyncGroup == old(qgisSyncGroup) &&
        messages == old(messages) +
          (if Appended(selected, IdSet(old(ltg))) == [] then [NeedNewLayers] else [])
      ensures selected == [] && ok && old(qgisSyncGroup) == Some(current.group) ==>
        ltg == old(ltg) && qgisSyncGroup == old(qgisSyncGroup) &&
        messages == old(messages) + [AlreadySynchronized(current.group)]
      ensures selected == [] && ok && old(qgisSyncGroup) != Some(current.group) ==>
        ltg == old(ltg) + NewNodes(Appended(current.layers, IdSet(old(ltg)))) &&
        qgisSyncGroup == Some(current.group) &&
        messages == old(messages) + [ChangedSyncGroup(current.group)] +
          (if Appended(current.layers, IdSet(old(ltg))) == [] then [NeedNewLayers] else [])
      ensures ok ==> canvasExtent == mainExtent
      ensures !ok ==> (ltg == old(ltg) && qgisSyncGroup == old(qgisSyncGroup) &&
                       messages == old(messages) && canvasExtent == old(canvasExtent))
    {
      if |selected| > 0 {
        AddLayers(selected, true);
      } else {
        match current
        case NotAGroup =>
          return false;
        case RootGroup =>
          return false;
        case Group(group, layers) =>
          var synced := SyncGroupAddLayers(group, layers);
          if !synced {
            return false;
          }
      }
      canvasExtent := mainExtent;
      return true;
    }

    /** `getWindowSetting`: the record saved for this window. */
    function GetWindowSetting(): (s: WindowSetting)
      reads this
      ensures s.numWin == numWin && s.geometryWin == geometry && s.extentCanvas == canvasExtent
      ensures ValidIds(ltg) ==> DecodeLayers(s.layerIds, s.visibles, IdSet(ltg)) == Restore(ltg, true)
      ensures s.currentLayerId == if currentLayer.Some? then currentLayer.value else NO_CURRENT_LAYER
      ensures (s.render != 0) == render && (s.marker != 0) == marker && (s.extent != 0) == extent
    {
      var s := WindowSetting(
        numWin, geometry, canvasExtent,
        if currentLayer.Some? then currentLayer.value else NO_CURRENT_LAYER,
        LayerIdsText(ltg), VisiblesText(ltg),
        ToggleValue(render), ToggleValue(marker), ToggleValue(extent));
      assert ValidIds(ltg) ==> DecodeLayers(s.layerIds, s.visibles, IdSet(ltg)) == Restore(ltg, true) by {
        if ValidIds(ltg) {
          LayersRoundTrip(ltg, IdSet(ltg));
          InTreeAll(ltg, IdSet(ltg));
        }
      }
      s
    }

    /** Everything the window holds, as one value. */
    ghost function State(): WindowState
      reads this
    {
      WindowState(numWin, geometry, canvasExtent, ltg, qgisSyncGroup, currentLayer,
                  render, marker, extent, messages)
    }

    /**
     * The loop of `setWindowSetting`: appends, in order, a node for each saved id
     * the main tree `tree` holds, with the flag at the same position; stops with
     * `false` where a found id has no flag.
     */
    method AddRestoredLayers(layerIds: seq<LayerId>, flags: seq<bool>, tree: set<LayerId>)
      returns (complete: bool)
      modifies this`ltg
      ensures ltg == old(ltg) + RestoreFrom(layerIds, flags, tree, 0).nodes
      ensures complete == RestoreFrom(layerIds, flags, tree, 0).complete
    {
      ghost var whole := RestoreFrom(layerIds, flags, tree, 0);
      var i := 0;
      while i < |layerIds|
        invariant 0 <= i <= |layerIds|
        invariant old(ltg) + whole.nodes == ltg + RestoreFrom(layerIds, flags, tree, i).nodes
        invariant whole.complete == RestoreFrom(layerIds, flags, tree, i).complete
      {
        if layerIds[i] !in tree {
          i := i + 1;
          continue;
        }
        if i >= |flags| {
          return false;
        }
        ltg := ltg + [LayerNode(layerIds[i], flags[i])];
        i := i + 1;
      }
      return true;
    }

    /**
     * `setWindowSetting`: takes the window number, appends the saved layers the
     * main tree `tree` holds with their saved visibility, makes the saved current
     * layer current if the window shows it, and restores the extent and the
     * three check boxes. `ok` is false where the source raises; then only the
     * number and the layers added before the failure have changed.
     */
    method SetWindowSetting(s: WindowSetting, tree: set<LayerId>) returns (ok: bool)
      modifies this`numWin, this`ltg, this`currentLayer, this`canvasExtent,
               this`render, this`marker, this`extent
      ensures numWin == s.numWin
      ensures ok == DecodeLayers(s.layerIds, s.visibles, tree).complete
      ensures ltg == old(ltg) + DecodeLayers(s.layerIds, s.visibles, tree).nodes
      ensures ok ==>
        currentLayer == (if s.currentLayerId in tree && s.currentLayerId in IdSet(ltg)
                         then Some(s.currentLayerId) else old(currentLayer)) &&
        canvasExtent == s.extentCanvas &&
        render == (s.render != 0) && marker == (s.marker != 0) && extent == (s.extent != 0)
      ensures !ok ==>
        currentLayer == old(currentLayer) && canvasExtent == old(canvasExtent) &&
        render == old(render) && marker == old(marker) && extent == old(extent)
    {
      numWin := s.numWin;
      var layerIds := SplitList(s.layerIds, SEPARATOR);
      var visibles := ParseFlags(SplitList(s.visibles, SEPARATOR));
      if visibles.None? {
        return false;
      }
      var complete := AddRestoredLayers(layerIds, visibles.value, tree);
      if !complete {
        return false;
      }
      if s.currentLayerId in tree && s.currentLayerId in IdSet(ltg) {
        currentLayer := Some(s.currentLayerId);
      }
      canvasExtent := s.extentCanvas;
      render, marker, extent := s.render != 0, s.marker != 0, s.extent != 0;
      return true;
    }
  }

  /**
   * Saving a window and rebuilding it from the saved record, while the main
   * layer tree `tree` still holds all of its layers, gives back its number,
   * geometry, canvas extent, layers with their visibility, current layer and
   * check boxes; only the sync group and the message bar start afresh.
   */
  lemma SaveThenReopen(w: AuxiliaryWindow, tree: set<LayerId>)
    requires ValidIds(w.ltg) && IdSet(w.ltg) <= tree
    requires w.currentLayer.Some? ==> w.currentLayer.value in IdSet(w.ltg)
    requires w.currentLayer.None? ==> NO_CURRENT_LAYER !in tree
    ensures DecodeLayers(w.GetWindowSetting().layerIds, w.GetWindowSetting().visibles, tree).complete
    ensures Reopened(w.GetWindowSetting(), tree) == w.State().(qgisSyncGroup := None, messages := [])
  {
    LayersRoundTrip(w.ltg, tree);
    InTreeAll(w.ltg, tree);
  }

  /**
   * A window rebuilt from a saved setting, as `onReadProject` does it:
   * `AuxiliaryWindow(parent, geometryWin, numWin)` followed by `setWindowSetting`.
   */
  method OpenSaved(s: WindowSetting, tree: set<LayerId>) returns (w: AuxiliaryWindow)
    requires DecodeLayers(s.layerIds, s.visibles, tree).complete
    ensures fresh(w) && w.State() == Reopened(s, tree)
  {
    w := new AuxiliaryWindow(s.geometryWin, s.numWin);
    var ok := w.SetWindowSetting(s, tree);
  }
}
