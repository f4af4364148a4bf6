# Auxiliary Window plugin: a Dafny model of its bookkeeping

The QGIS "Auxiliary Window" plugin opens extra map windows beside the main map.
Each window shows its own ordered list of layers taken from the main map's layer
tree, may follow one group of that tree (its "sync group"), and carries three
check boxes (render, marker, extent). A registry numbers the open windows, saves
them into the project file and rebuilds them when a project is read.

This project models that bookkeeping and proves what it does:

- `layers.dfy` (module `LayerList`): the layer list of a window as a sequence of
  `(layer id, visible)` nodes, with the append rule of `_addLayersQgis` and the
  removal rule of `onLayersWillBeRemoved` as functions, and lemmas about them.
- `settings.dfy` (module `WindowSettings`): the record a window saves
  (`getWindowSetting`), Python's `str.join`/`str.split`/`int()` as far as the
  record uses them, the decoding of `setWindowSetting`, the round trip between
  the two, and the outline `_extent` draws.
- `window.dfy` (module `Window`): `AuxiliaryWindow` as a class whose methods
  update its fields in place, as the source does: adding and removing layers,
  the sync-group state machine and the slots that drive it, `run`, saving and
  restoring a window.
- `registry.dfy` (module `Registry`): `ContainerAuxiliaryWindow` as a class with
  the counter `numWin` and the map `windows`, its invariant (every key is at most
  the counter and each window knows its number), `run` with its rollback,
  `close`/`onClosed`, `onReadProject` (with the running maximum of window
  numbers) and `onWriteProject`.
- `wrappers.dfy`: the `Option` type.

Layers are identified by the id the host gives them and groups by an opaque
number. The host's answers (the selected layers, the current node of the main
tree, the ids the main tree holds, the root's children, the main map's extent)
are parameters. Messages pushed to a window's message bar are appended to a
`messages` log. The registry's "Need selected layers" message is its `Run`'s
`false` result.

## Model

| member | source | states |
|---|---|---|
| LayerList.AppendedMember | auxiliarywindow.py:407-418 | a layer is appended exactly when it is requested and the window does not show it yet |
| LayerList.AppendedConcat | auxiliarywindow.py:414-418 | appending follows request order: the result for a concatenated request is the concatenation of the results |
| LayerList.AppendedCount | auxiliarywindow.py:407-418 | a new layer is appended as many times as it is requested; a layer already shown never is |
| LayerList.AppendedNothing | auxiliarywindow.py:409-412 | nothing is appended exactly when every requested layer is already shown |
| LayerList.AppendedDistinct | auxiliarywindow.py:407-418 | a request without repeats appends no layer twice |
| LayerList.AppendKeepsDistinct | auxiliarywindow.py:407-418 | a list without repeated layers keeps that property after appending a request without repeats |
| LayerList.WithoutRemoveFirst | auxiliarywindow.py:659-663 | removing one id's first node and then the others gives the same list as removing them all, whatever the order |
| LayerList.WithoutNothing | auxiliarywindow.py:659-663 | removing no id leaves the list unchanged |
| LayerList.WithoutOnlyShownIds | auxiliarywindow.py:659 | only the removed ids the window shows matter (the intersection with the window's ids) |
| LayerList.WithoutCount | auxiliarywindow.py:659-663 | each removed id the list shows loses exactly one node; every other layer keeps all its nodes |
| LayerList.WithoutDistinct | auxiliarywindow.py:657-663 | with no layer shown twice, removal keeps exactly the nodes whose layer is not removed, in their order |
| LayerList.WithoutMember | auxiliarywindow.py:657-663 | removal only drops nodes of the window, and every node whose layer is not removed survives it |
| LayerList.WithoutConcat | auxiliarywindow.py:657-663 | removal keeps the relative order of the remaining nodes: removing from `a + b` removes from `a`, then from `b` the removed ids `a` did not show |
| LayerList.KeepMember | auxiliarywindow.py:657-663 | on a list without repeated layers (where removal is this filter, `LayerList.WithoutDistinct`), a node survives exactly when it was in the list and its layer is not removed |
| LayerList.KeepConcat | auxiliarywindow.py:657-663 | on a list without repeated layers, where removal is this filter, the filter of a concatenation is the concatenation of the filtered parts |
| WindowSettings.Split | auxiliarywindow.py:517-518 | `split(' ')` yields at least one piece, and exactly one when the text has no separator |
| WindowSettings.SplitJoin | auxiliarywindow.py:504-505 | splitting undoes joining for a non-empty list of pieces without separators |
| WindowSettings.JoinEmpty | auxiliarywindow.py:504-505 | a join of non-empty pieces is empty exactly when there is no piece |
| WindowSettings.JoinSplit | auxiliarywindow.py:517-518 | `split(' ')` cuts at separators only: joining its pieces gives the text back |
| WindowSettings.SplitPiecesFree | auxiliarywindow.py:517-518 | `split(' ')` cuts at every separator: no piece holds one |
| WindowSettings.SplitList | auxiliarywindow.py:517-518 | the corrected split: joining its pieces gives the text back, no piece holds a separator, and it gives no piece exactly for the empty text |
| WindowSettings.SplitListJoin | auxiliarywindow.py:504-505 | the corrected split undoes joining for every list of non-empty pieces without separators, the empty list included |
| WindowSettings.ParseInt | auxiliarywindow.py:518 | `int()` of the empty text fails |
| WindowSettings.ParseFlags | auxiliarywindow.py:518 | the eager `map(bool(int(...)))` gives one flag per piece and succeeds only when every piece is an integer |
| WindowSettings.ParseFlagsMeaning | auxiliarywindow.py:518 | `map(bool(int(...)))` succeeds exactly when every piece is an integer, and then each flag is true exactly when its piece's integer is nonzero |
| WindowSettings.ParseFlagText | auxiliarywindow.py:505 | a layer's visibility is saved as its check state, `str(int(isVisible()))`, and reads back as 2 (`Qt.Checked`) when visible and 0 (`Qt.Unchecked`) when hidden |
| WindowSettings.ParseFlagTexts | auxiliarywindow.py:505 | every saved list of visibility flags parses back to the same flags |
| WindowSettings.ToggleValue | auxiliarywindow.py:507-509 | a check box is saved as 0 or 1, and `bool()` of it gives the check box back |
| WindowSettings.RestoreFrom | auxiliarywindow.py:520-527 | every restored node is a layer the main tree holds |
| WindowSettings.RestoreFromSaved | auxiliarywindow.py:520-527 | restoring the saved ids and flags yields the window's layers that the main tree holds, in order, with their visibility |
| WindowSettings.LayersRoundTrip | auxiliarywindow.py:504-505 | decoding the saved `layerIds`/`visibles` gives back the layers the main tree still holds, in order, with their visibility, and runs to the end |
| WindowSettings.InTreeAll | auxiliarywindow.py:520-523 | no layer is skipped when the main tree holds all of them |
| WindowSettings.EmptyWindowDoesNotRestore | auxiliarywindow.py:517-518 | decoding as written fails on the record of a window with no layers |
| WindowSettings.AsWrittenAgreesOnNonEmptyText | auxiliarywindow.py:517-518 | on any record whose `layerIds` and `visibles` are both non-empty, the corrected decoding is the source's |
| WindowSettings.AsWrittenAgreesWhenNotEmpty | auxiliarywindow.py:517-518 | for a window with layers, decoding as written and the corrected decoding agree |
| Registry.MaxNumWinBounds | auxiliarywindow.py:765-773 | no loaded window number exceeds the counter `onReadProject` ends with |
| Registry.MaxNumWinAttained | auxiliarywindow.py:765-773 | that counter is 0 or the number of a loaded window |
| WindowSettings.ExtentRing | auxiliarywindow.py:383-391 | the outline has five points, starts at (xmin, ymin), goes up the left side first, visits exactly the four corners, is closed, and every edge is horizontal or vertical |
| Window.AuxiliaryWindow.constructor | auxiliarywindow.py:222-313 | a new window has its number and geometry, no layers, no sync group, rendering on and marker and extent off |
| Window.AuxiliaryWindow.AddLayers | auxiliarywindow.py:403-420 | the list becomes the old list followed by one visible node per appended layer; the warning is pushed exactly when nothing is appended and `needMsg` holds |
| Window.AuxiliaryWindow.RemoveLayers | auxiliarywindow.py:657-663 | the list becomes the old list without the first node of every removed id; a current layer still shown stays current, otherwise the legend view's choice (a layer still shown, or none) becomes current |
| Window.AuxiliaryWindow.SyncGroupAddLayers | auxiliarywindow.py:422-444 | empty group: false, nothing changes; current sync group: true, only the "already synchronized" message; other group: it becomes the sync group, its layers are appended, and the messages follow |
| Window.AuxiliaryWindow.OnAddSelectedLayers | auxiliarywindow.py:666-668 | the selected layers are appended as `_addLayersQgis` does, with the warning when none is new |
| Window.AuxiliaryWindow.AddedChildrenLayer | auxiliarywindow.py:671-673 | the layers of the group node the `addedChildren` signal names (the sync group or a subgroup of it) are appended as `_addLayersQgis` does, never with a warning |
| Window.AuxiliaryWindow.OnSyncGroupAddLayers | auxiliarywindow.py:685-694 | a current node that is not a group, the root, or a group without layers: nothing changes but the "need active a group" warning; otherwise the three-way behaviour of `_syncGroupAddLayersQgis` |
| Window.AuxiliaryWindow.OnRemovedChildrenQgisRoot | auxiliarywindow.py:675-681 | the sync group is forgotten, with a message, exactly when it is no longer a child of the root |
| Window.AuxiliaryWindow.Run | auxiliarywindow.py:446-471 | starts from the selected layers or else from a non-root group with layers; fails otherwise with nothing changed; on success the canvas takes the main extent |
| Window.AuxiliaryWindow.GetWindowSetting | auxiliarywindow.py:492-511 | the record carries number, geometry and extent; its layers decode back to the window's layers; current layer and check boxes decode back |
| Window.AuxiliaryWindow.AddRestoredLayers | auxiliarywindow.py:520-527 | the list becomes the old list followed by the restored nodes of `RestoreFrom`, and the result says whether the loop ran to the end |
| Window.AuxiliaryWindow.SetWindowSetting | auxiliarywindow.py:513-541 | sets the number, appends the decoded layers; on success restores current layer, extent and check boxes; on failure nothing else changes |
| Window.SaveThenReopen | auxiliarywindow.py:492-541 | saving a window and rebuilding it gives back its number, geometry, extent, layers, current layer and check boxes |
| Window.OpenSaved | auxiliarywindow.py:767-770 | a window built from a saved record and restored from it is new and in the state the record describes |
| Registry.Latest | auxiliarywindow.py:767-769 | reading the saved windows in order keeps one setting per saved number |
| Registry.LatestNumbers | auxiliarywindow.py:767-769 | each kept setting is stored under its own number and comes from the saved list |
| Registry.LatestIsLast | auxiliarywindow.py:767-769 | the setting kept for a number is the last one saved with that number |
| Registry.ReadWindows | auxiliarywindow.py:765-772 | one new window per saved number, rebuilt from the last setting with that number, and the largest number |
| Registry.ContainerAuxiliaryWindow.constructor | auxiliarywindow.py:733-736 | the registry starts with counter 0 and no window |
| Registry.ContainerAuxiliaryWindow.Run | auxiliarywindow.py:738-748 | success: the next number is taken and maps to the new window, the others unchanged; failure: counter and map as before |
| Registry.ContainerAuxiliaryWindow.OnClosed | auxiliarywindow.py:754-756 | removes exactly the given key and keeps the invariant |
| Registry.ContainerAuxiliaryWindow.Close | auxiliarywindow.py:750-752 | closing every window empties the map |
| Registry.ContainerAuxiliaryWindow.OnReadProject | auxiliarywindow.py:758-773 | no entry: nothing changes; otherwise one new window per saved number, rebuilt from the last setting saved with it, and the counter is the largest saved number or 0 |
| Registry.ContainerAuxiliaryWindow.OnWriteProject | auxiliarywindow.py:775-785 | no window: the entry is removed; otherwise one setting per open window, each the window's own record |

## Left out

- Widgets, layouts, the toolbar and the signal wiring: they route host events to the operations above.
- The user clicking the status bar's Render, Marker and Extent check boxes: it changes `render`, `marker` and `extent` directly, and no modelled operation does; the slots those check boxes drive are rendering work. The model sets these fields only in the constructor and `SetWindowSetting`.
- The legend's "current layer" action: it sets the main map's current layer, which is host state outside this model.
- The legend dock's own editing of the window's list: its show/hide/remove actions (`setVisible`, `removeChildNode`) and the view's node reordering and visibility check boxes change the order, membership and visibility of `ltg` directly, and are not modelled; neither is the user picking a current layer in the legend.
- Window.AuxiliaryWindow.RemoveLayers: which layer the legend view makes current when the current one is removed (a neighbour, or none) is Qt's choice, given as the parameter `hostCurrent`; the model promises only that it is a layer still shown, or none.
- Scale and extent mirroring between canvases, the scale button text, rubber bands, markers, the highlight timer and CRS syncing: floating-point and rendering work of the host.
- The JSON text and the project entry's read/write calls: the entry is a list of records (`Registry.ProjectEntry`), absent or present.
- Vector-layer refresh wiring (`_connectVectorRefresh`) and `clearBridge`/`setBridge`: host calls with no effect on the modelled state.
- The names shown in the legend's sync-group label and the texts, levels and durations of messages: a message is its kind.
- WindowSettings.ParseInt: does not model `int()` stripping surrounding whitespace; the pieces come from splitting on spaces.
- Window.AuxiliaryWindow.SetWindowSetting: the saved current layer becomes current only when the window shows it; what the legend view does with a layer it does not show is host behaviour.
- Window.AuxiliaryWindow.SetWindowSetting: the window's canvas extent is the saved one; the canvas's own adjustment of an extent to its size is not modelled.
- Registry.ContainerAuxiliaryWindow.OnReadProject: requires every saved record to decode with the corrected decoding `WindowSettings.DecodeLayers` (see "## Findings"), and rebuilds windows with it. A record with an empty `visibles` text, such as the one saved for a window without layers, therefore reopens, where the source raises `ValueError` at line 518 part-way through the loop, leaving the windows built so far. Records that fail either decoding (a piece that is not an integer, fewer flags than layers found) are excluded by the `requires`; the source raises on them too.
- Registry.ReadWindows: decodes with `WindowSettings.DecodeLayers`, so a record with an empty `visibles` text reopens where the source raises at line 518.
- Window.AuxiliaryWindow.SetWindowSetting: decodes with `WindowSettings.DecodeLayers`, so `layerIds` or `visibles` equal to `""` is read as no pieces; the source splits it into `[""]`, and on an empty `visibles` raises at line 518 (`WindowSettings.AsWrittenAgreesOnNonEmptyText`: on non-empty texts the two agree).
- Window.OpenSaved: its `requires` is on the corrected decoding, so it admits the record of a window without layers, on which the source's `setWindowSetting` raises.
- Window.SaveThenReopen: states the round trip of the corrected decoding; for a window without layers the source's own reload raises (`WindowSettings.EmptyWindowDoesNotRestore`).
- Registry.ContainerAuxiliaryWindow.OnClosed: requires the key to be present; only a registered window emits `closed`, and the source raises `KeyError` otherwise.
- Negative window numbers: numbers are `nat`. The counter starts at 0, grows by one in `run`, goes back by one when a run fails, and `onReadProject` sets it to the largest saved number or 0, so it never goes below 0; saved numbers are ones it handed out.
- Window.AuxiliaryWindow.OnRemovedChildrenQgisRoot: `root.children()` is given as a set of group handles; a sync group nested below another group is not a child of the root, as in the source.
- The loop of `onReadProject` is the module-level `Registry.ReadWindows`, returning the new map and counter, which `OnReadProject` then stores; the source stores into `self.windows` inside the loop, with the same final state.

## Findings

| source | as written | input that shows it | evidently intended | confidence | as-written member | corrected member |
|---|---|---|---|---|---|---|
| auxiliarywindow.py:504-505, 517-518 | a window with no layers saves `layerIds` and `visibles` as `""`; reading it back splits `""` into `[""]` and `int("")` raises `ValueError` | save a project while a window shows no layer (all its layers were removed), then read the project | the empty text is read as the empty list, so the window reopens with no layers | not executed | WindowSettings.DecodeLayersAsWritten (lemma WindowSettings.EmptyWindowDoesNotRestore) | WindowSettings.DecodeLayers (lemma WindowSettings.LayersRoundTrip) |
