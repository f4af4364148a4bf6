/**
 * The ordered layer list of one auxiliary window (its own layer-tree group `ltg`),
 * and the two rules that change it: appending requested layers and removing the
 * layers the host is about to delete.
 */
module LayerList {

  /** A layer, identified by the id the host's layer registry gives it. */
  type LayerId = string

  /** One node of the window's group: the layer it shows and its visibility check box. */
  datatype LayerNode = LayerNode(id: LayerId, visible: bool)

  /** The ids of the layers shown by `nodes`, in list order. */
  function Ids(nodes: seq<LayerNode>): seq<LayerId>
  {
    seq(|nodes|, i requires 0 <= i < |nodes| => nodes[i].id)
  }

  function IdSet(nodes: seq<LayerNode>): set<LayerId>
  {
    set n | n in nodes :: n.id
  }

  function ToSet(ids: seq<LayerId>): set<LayerId>
  {
    set x | x in ids
  }

  /** How many nodes of `nodes` show the layer `id`. */
  function Count(nodes: seq<LayerNode>, id: LayerId): nat
  {
    if nodes == [] then 0
    else (if nodes[0].id == id then 1 else 0) + Count(nodes[1..], id)
  }

  /** No id occurs twice. */
  ghost predicate Distinct(ids: seq<LayerId>)
  {
    forall i, j :: 0 <= i < j < |ids| ==> ids[i] != ids[j]
  }

  /** No layer is shown twice. */
  ghost predicate DistinctIds(nodes: seq<LayerNode>)
  {
    Distinct(Ids(nodes))
  }

  /** `DistinctIds` stated on the nodes themselves. */
  lemma DistinctIdsNodes(nodes: seq<LayerNode>)
    ensures DistinctIds(nodes) <==> forall i, j :: 0 <= i < j < |nodes| ==> nodes[i].id != nodes[j].id
  {
    assert forall i :: 0 <= i < |nodes| ==> Ids(nodes)[i] == nodes[i].id;
  }

  // ---------------------------------------------------------------------------
  // Appending (`_addLayersQgis`)
  // ---------------------------------------------------------------------------

  /**
   * The layers `_addLayersQgis` appends for `request` when the window already
   * shows `present`: every requested layer that is not present, in request order
   * (a layer requested twice is appended twice).
   */
  function Appended(request: seq<LayerId>, present: set<LayerId>): seq<LayerId>
  {
    if request == [] then []
    else if request[0] in present then Appended(request[1..], present)
    else [request[0]] + Appended(request[1..], present)
  }

  /** The nodes `addLayer` creates for `ids`: one visible node per id, in order. */
  function NewNodes(ids: seq<LayerId>): seq<LayerNode>
  {
    seq(|ids|, i requires 0 <= i < |ids| => LayerNode(ids[i], true))
  }

  /** A layer is appended exactly when it is requested and not already shown. */
  lemma {:induction false} AppendedMember(request: seq<LayerId>, present: set<LayerId>, x: LayerId)
    ensures x in Appended(request, present) <==> x in request && x !in present
  {
    if request != [] {
      AppendedMember(request[1..], present, x);
      assert request == [request[0]] + request[1..];
    }
  }

  /** Appending keeps request order: splitting the request splits the result. */
  lemma {:induction false} AppendedConcat(a: seq<LayerId>, b: seq<LayerId>, present: set<LayerId>)
    ensures Appended(a + b, present) == Appended(a, present) + Appended(b, present)
  {
    if a == [] {
      assert a + b == b;
    } else {
      assert (a + b)[1..] == a[1..] + b;
      AppendedConcat(a[1..], b, present);
    }
  }

  /** Each new layer is appended as many times as it is requested; present layers never. */
  lemma {:induction false} AppendedCount(request: seq<LayerId>, present: set<LayerId>, x: LayerId)
    ensures multiset(Appended(request, present))[x] == if x in present then 0 else multiset(request)[x]
  {
    if request != [] {
      AppendedCount(request[1..], present, x);
      assert request == [request[0]] + request[1..];
    }
  }

  /** Nothing is appended exactly when every requested layer is already shown. */
  lemma AppendedNothing(request: seq<LayerId>, present: set<LayerId>)
    ensures Appended(request, present) == [] <==> ToSet(request) <= present
  {
    if Appended(request, present) == [] {
      forall x | x in request ensures x in present {
        AppendedMember(request, present, x);
      }
    } else {
      var x := Appended(request, present)[0];
      AppendedMember(request, present, x);
    }
  }

  /** A request without repeats appends no layer twice. */
  lemma {:induction false} AppendedDistinct(request: seq<LayerId>, present: set<LayerId>)
    requires Distinct(request)
    ensures Distinct(Appended(request, present))
  {
    if request != [] {
      var rest := request[1..];
      assert Distinct(rest) by {
        forall i, j | 0 <= i < j < |rest| ensures rest[i] != rest[j] {
          assert rest[i] == request[i + 1] && rest[j] == request[j + 1];
        }
      }
      AppendedDistinct(rest, present);
      if request[0] !in present {
        AppendedMember(rest, present, request[0]);
        assert request[0] !in rest by {
          forall k | 0 <= k < |rest| ensures rest[k] != request[0] {
            assert rest[k] == request[k + 1];
          }
        }
        var tail := Appended(rest, present);
        var r := [request[0]] + tail;
        forall i, j | 0 <= i < j < |r| ensures r[i] != r[j] {
          if i == 0 {
            assert r[j] == tail[j - 1];
            assert tail[j - 1] in tail;
          } else {
            assert r[i] == tail[i - 1] && r[j] == tail[j - 1];
          }
        }
      }
    }
  }

  /**
   * A window whose list has no repeated layer keeps that property when a request
   * without repeats is appended.
   */
  lemma AppendKeepsDistinct(ltg: seq<LayerNode>, request: seq<LayerId>)
    requires DistinctIds(ltg) && Distinct(request)
    ensures DistinctIds(ltg + NewNodes(Appended(request, IdSet(ltg))))
  {
    var added := Appended(request, IdSet(ltg));
    AppendedDistinct(request, IdSet(ltg));
    var r := ltg + NewNodes(added);
    DistinctIdsNodes(ltg);
    DistinctIdsNodes(r);
    forall i, j | 0 <= i < j < |r| ensures r[i].id != r[j].id {
      if j >= |ltg| {
        assert r[j].id == added[j - |ltg|];
        if i >= |ltg| {
          assert r[i].id == added[i - |ltg|];
        } else {
          assert r[i] in ltg;
          assert r[i].id in IdSet(ltg);
          assert added[j - |ltg|] in added;
          AppendedMember(request, IdSet(ltg), added[j - |ltg|]);
        }
      }
    }
  }

  // ---------------------------------------------------------------------------
  // Removal (`onLayersWillBeRemoved`)
  // ---------------------------------------------------------------------------

  /** `removeChildNode(findLayer(id))`: drops the first node showing `id`, if there is one. */
  function RemoveFirst(nodes: seq<LayerNode>, id: LayerId): seq<LayerNode>
  {
    if nodes == [] then []
    else if nodes[0].id == id then nodes[1..]
    else [nodes[0]] + RemoveFirst(nodes[1..], id)
  }

  /** The list left after dropping, for every id in `ids`, the first node showing it. */
  function Without(nodes: seq<LayerNode>, ids: set<LayerId>): seq<LayerNode>
  {
    if nodes == [] then []
    else if nodes[0].id in ids then Without(nodes[1..], ids - {nodes[0].id})
    else [nodes[0]] + Without(nodes[1..], ids)
  }

  /** The nodes whose layer is not in `ids`, in their original order. */
  function Keep(nodes: seq<LayerNode>, ids: set<LayerId>): seq<LayerNode>
  {
    if nodes == [] then []
    else if nodes[0].id in ids then Keep(nodes[1..], ids)
    else [nodes[0]] + Keep(nodes[1..], ids)
  }

  /** Removing one id first and the others afterwards gives the same list as removing them all. */
  lemma {:induction false} WithoutRemoveFirst(nodes: seq<LayerNode>, ids: set<LayerId>, id: LayerId)
    requires id in ids
    ensures Without(RemoveFirst(nodes, id), ids - {id}) == Without(nodes, ids)
  {
    if nodes != [] && nodes[0].id != id {
      var head, rest := nodes[0], nodes[1..];
      var r := [head] + RemoveFirst(rest, id);
      assert r[0] == head && r[1..] == RemoveFirst(rest, id);
      if head.id in ids {
        WithoutRemoveFirst(rest, ids - {head.id}, id);
        assert ids - {id} - {head.id} == ids - {head.id} - {id};
      } else {
        WithoutRemoveFirst(rest, ids, id);
      }
    }
  }

  /** Removing no id changes nothing. */
  lemma {:induction false} WithoutNothing(nodes: seq<LayerNode>)
    ensures Without(nodes, {}) == nodes
  {
    if nodes != [] {
      WithoutNothing(nodes[1..]);
    }
  }

  /** Only the ids the list shows matter to the removal. */
  lemma {:induction false} WithoutOnlyShownIds(nodes: seq<LayerNode>, ids: set<LayerId>, ids': set<LayerId>)
    requires ids * IdSet(nodes) == ids' * IdSet(nodes)
    ensures Without(nodes, ids) == Without(nodes, ids')
  {
    if nodes != [] {
      var head, rest := nodes[0], nodes[1..];
      assert IdSet(rest) <= IdSet(nodes) by {
        forall n | n in rest ensures n.id in IdSet(nodes) {
          assert n in nodes;
        }
      }
      assert head in nodes;
      assert head.id in IdSet(nodes);
      assert head.id in ids <==> head.id in ids * IdSet(nodes);
      assert forall y :: y in IdSet(rest) ==> (y in ids <==> y in ids') by {
        forall y | y in IdSet(rest) ensures y in ids <==> y in ids' {
          assert y in ids * IdSet(nodes) <==> y in ids' * IdSet(nodes);
        }
      }
      if head.id in ids {
        assert head.id in ids';
        WithoutOnlyShownIds(rest, ids - {head.id}, ids' - {head.id});
      } else {
        assert head.id !in ids';
        WithoutOnlyShownIds(rest, ids, ids');
      }
    }
  }

  /**
   * Every removed id that the list shows loses exactly one node (the first one);
   * every other layer keeps all of its nodes.
   */
  lemma {:induction false} WithoutCount(nodes: seq<LayerNode>, ids: set<LayerId>, x: LayerId)
    ensures Count(Without(nodes, ids), x) ==
            if x in ids && Count(nodes, x) > 0 then Count(nodes, x) - 1 else Count(nodes, x)
  {
    if nodes != [] {
      var head, rest := nodes[0], nodes[1..];
      if head.id in ids {
        WithoutCount(rest, ids - {head.id}, x);
      } else {
        WithoutCount(rest, ids, x);
        var r := [head] + Without(rest, ids);
        assert r[0] == head && r[1..] == Without(rest, ids);
      }
    }
  }

  /** The ids shown by a non-empty list: its first node's and the rest's. */
  lemma IdSetCons(nodes: seq<LayerNode>)
    requires nodes != []
    ensures IdSet(nodes) == {nodes[0].id} + IdSet(nodes[1..])
  {
    assert nodes == [nodes[0]] + nodes[1..];
    forall n | n in nodes ensures n == nodes[0] || n in nodes[1..] {
    }
  }

  /**
   * Removal keeps the relative order of the remaining nodes: removing from a
   * concatenation removes from the first part, then, from the second part, the ids
   * the first part did not show.
   */
  lemma {:induction false} WithoutConcat(a: seq<LayerNode>, b: seq<LayerNode>, ids: set<LayerId>)
    ensures Without(a + b, ids) == Without(a, ids) + Without(b, ids - IdSet(a))
  {
    if a == [] {
      assert a + b == b;
      assert ids - IdSet(a) == ids;
    } else {
      var head := a[0];
      assert (a + b)[0] == head && (a + b)[1..] == a[1..] + b;
      IdSetCons(a);
      if head.id in ids {
        WithoutConcat(a[1..], b, ids - {head.id});
        assert ids - {head.id} - IdSet(a[1..]) == ids - IdSet(a);
      } else {
        WithoutConcat(a[1..], b, ids);
        assert ids - IdSet(a[1..]) == ids - IdSet(a);
      }
    }
  }

  /**
   * Removal only drops nodes, and never drops a node whose layer is not removed.
   */
  lemma {:induction false} WithoutMember(nodes: seq<LayerNode>, ids: set<LayerId>, n: LayerNode)
    ensures n in Without(nodes, ids) ==> n in nodes
    ensures n in nodes && n.id !in ids ==> n in Without(nodes, ids)
  {
    if nodes != [] {
      assert nodes == [nodes[0]] + nodes[1..];
      if nodes[0].id in ids {
        WithoutMember(nodes[1..], ids - {nodes[0].id}, n);
      } else {
        WithoutMember(nodes[1..], ids, n);
      }
    }
  }

  /** Nodes of layers outside `ids` do not affect the filter by `ids`. */
  lemma {:induction false} KeepSameOnShown(nodes: seq<LayerNode>, ids: set<LayerId>, ids': set<LayerId>)
    requires forall n :: n in nodes ==> (n.id in ids <==> n.id in ids')
    ensures Keep(nodes, ids) == Keep(nodes, ids')
  {
    if nodes != [] {
      assert nodes[0] in nodes;
      forall n | n in nodes[1..] ensures n.id in ids <==> n.id in ids' {
        assert n in nodes;
      }
      KeepSameOnShown(nodes[1..], ids, ids');
    }
  }

  /**
   * When no layer is shown twice, the removal drops exactly the nodes whose ids
   * are removed and keeps every other node, in its original order.
   */
  lemma {:induction false} WithoutDistinct(nodes: seq<LayerNode>, ids: set<LayerId>)
    requires DistinctIds(nodes)
    ensures Without(nodes, ids) == Keep(nodes, ids)
  {
    if nodes != [] {
      var head, rest := nodes[0], nodes[1..];
      DistinctIdsNodes(nodes);
      assert DistinctIds(rest) by {
        DistinctIdsNodes(rest);
        forall i, j | 0 <= i < j < |rest| ensures rest[i].id != rest[j].id {
          assert rest[i] == nodes[i + 1] && rest[j] == nodes[j + 1];
        }
      }
      if head.id in ids {
        WithoutDistinct(rest, ids - {head.id});
        forall n | n in rest ensures n.id in ids - {head.id} <==> n.id in ids {
          var k :| 0 <= k < |rest| && rest[k] == n;
          assert n == nodes[k + 1];
        }
        KeepSameOnShown(rest, ids - {head.id}, ids);
      } else {
        WithoutDistinct(rest, ids);
      }
    }
  }

  /** A node survives the filter exactly when it was there and its layer is not removed. */
  lemma {:induction false} KeepMember(nodes: seq<LayerNode>, ids: set<LayerId>, n: LayerNode)
    ensures n in Keep(nodes, ids) <==> n in nodes && n.id !in ids
  {
    if nodes != [] {
      KeepMember(nodes[1..], ids, n);
      assert nodes == [nodes[0]] + nodes[1..];
    }
  }

  /** The filter keeps the relative order: filtering a concatenation concatenates the filtered parts. */
  lemma {:induction false} KeepConcat(a: seq<LayerNode>, b: seq<LayerNode>, ids: set<LayerId>)
    ensures Keep(a + b, ids) == Keep(a, ids) + Keep(b, ids)
  {
    if a == [] {
      assert a + b == b;
    } else {
      assert (a + b)[1..] == a[1..] + b;
      KeepConcat(a[1..], b, ids);
    }
  }
}
