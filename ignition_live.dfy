/**
 * The stand-alone live-sync program: a global map from model name to pose,
 * refreshed by the pose topic and reconciled on each pass of the worker
 * with the simulator's scene listing, which also creates the prims of new
 * models; a flag records that a sphere was added so that the next save is
 * followed by a live process.
 */
module IgnitionLive {
  import opened Wrappers
  import opened Maps
  import opened SceneRegistry

  /** The geometry types the worker creates prims for (an ellipsoid becomes a scaled sphere). */
  datatype GeometryKind = SphereGeom | CylinderGeom | BoxGeom | PlaneGeom | CapsuleGeom | EllipsoidGeom | OtherGeom

  datatype ListedVisual = ListedVisual(name: string, geometry: GeometryKind)
  datatype ListedLink = ListedLink(name: string, visuals: seq<ListedVisual>)

  /** A model of the scene listing. */
  datatype ListedModel = ListedModel(name: string, pose: Pose, links: seq<ListedLink>)

  /** The pose map after a pose message: a pose overwrites (corrected) only a name already present. */
  function Refreshed(m: map<string, Pose>, msgs: seq<PoseMsg>, correct: Pose -> Pose): map<string, Pose>
  {
    if msgs == [] then m
    else
      var msg := msgs[|msgs| - 1];
      var before := Refreshed(m, msgs[..|msgs| - 1], correct);
      if msg.name in before then before[msg.name := correct(msg.pose)] else before
  }

  /** A pose message never adds or drops a name. */
  lemma {:induction false} RefreshedKeys(m: map<string, Pose>, msgs: seq<PoseMsg>, correct: Pose -> Pose)
    ensures Refreshed(m, msgs, correct).Keys == m.Keys
  {
    if msgs != [] {
      RefreshedKeys(m, msgs[..|msgs| - 1], correct);
    }
  }

  /** A present name that no pose message names keeps its pose. */
  lemma {:induction false} RefreshedUntouched(m: map<string, Pose>, msgs: seq<PoseMsg>, correct: Pose -> Pose, n: string)
    requires n in m && forall i :: 0 <= i < |msgs| ==> msgs[i].name != n
    ensures n in Refreshed(m, msgs, correct) && Refreshed(m, msgs, correct)[n] == m[n]
  {
    if msgs != [] {
      var init := msgs[..|msgs| - 1];
      forall i | 0 <= i < |init|
        ensures init[i].name != n
      {
        assert init[i] == msgs[i];
      }
      RefreshedUntouched(m, init, correct, n);
    }
  }

  /** The last pose message for a present name sets its pose, corrected. */
  lemma {:induction false} RefreshedLastWins(m: map<string, Pose>, msgs: seq<PoseMsg>, correct: Pose -> Pose, i: int)
    requires 0 <= i < |msgs| && msgs[i].name in m
    requires forall j :: i < j < |msgs| ==> msgs[j].name != msgs[i].name
    ensures msgs[i].name in Refreshed(m, msgs, correct) && Refreshed(m, msgs, correct)[msgs[i].name] == correct(msgs[i].pose)
  {
    var init := msgs[..|msgs| - 1];
    RefreshedKeys(m, init, correct);
    if i < |init| {
      assert init[i] == msgs[i];
      forall j | i < j < |init|
        ensures init[j].name != init[i].name
      {
        assert init[j] == msgs[j];
      }
      RefreshedLastWins(m, init, correct, i);
    }
  }

  /** The names of the listing. */
  function ListedNames(listing: seq<ListedModel>): set<string>
  {
    set i | 0 <= i < |listing| :: listing[i].name
  }

  /** The insertions of a pass: every listed model with its listed pose, in listing order. */
  function PoseEntries(listing: seq<ListedModel>): (entries: seq<(string, Pose)>)
    ensures |entries| == |listing|
    ensures forall i :: 0 <= i < |listing| ==> entries[i] == (listing[i].name, listing[i].pose)
  {
    seq(|listing|, i requires 0 <= i < |listing| => (listing[i].name, listing[i].pose))
  }

  /**
   * The listing positions whose prims a pass creates, starting from the
   * map `kept` left by the removals and the names `known` before it: a
   * model not yet in the map when its turn comes, and only when some names
   * were known.
   */
  function CreatedIndices(kept: map<string, Pose>, known: set<string>, listing: seq<ListedModel>): seq<nat>
  {
    if listing == [] then []
    else
      var init := listing[..|listing| - 1];
      CreatedIndices(kept, known, init) +
        (if listing[|listing| - 1].name !in Inserted(kept, PoseEntries(init)) && |known| > 0 then [|listing| - 1] else [])
  }

  /**
   * A position is created iff some names were known, its name is not in
   * the kept map and no earlier position lists the same name.
   */
  lemma {:induction false} CreatedIndicesMeaning(kept: map<string, Pose>, known: set<string>, listing: seq<ListedModel>, i: int)
    ensures i in CreatedIndices(kept, known, listing) <==>
      0 <= i < |listing| && |known| > 0 && listing[i].name !in kept &&
      forall j :: 0 <= j < i ==> listing[j].name != listing[i].name
  {
    if listing != [] {
      var init := listing[..|listing| - 1];
      var last := |listing| - 1;
      CreatedIndicesMeaning(kept, known, init, i);
      if 0 <= i < |init| {
        assert init[i] == listing[i];
        assert (forall j :: 0 <= j < i ==> init[j].name != init[i].name) <==>
               (forall j :: 0 <= j < i ==> listing[j].name != listing[i].name) by {
          forall j | 0 <= j < i
            ensures init[j] == listing[j]
          {
          }
        }
        assert i != last;
      }
      if i == last {
        var n := listing[last].name;
        InsertedKeys(kept, PoseEntries(init), n);
        assert HasKey(PoseEntries(init), n) <==> exists j :: 0 <= j < last && listing[j].name == n by {
          if HasKey(PoseEntries(init), n) {
            var j :| 0 <= j < |init| && PoseEntries(init)[j].0 == n;
            assert listing[j] == init[j];
          }
          if exists j :: 0 <= j < last && listing[j].name == n {
            var j :| 0 <= j < last && listing[j].name == n;
            assert PoseEntries(init)[j].0 == n;
          }
        }
        CreatedIndicesBelow(kept, known, init);
      }
    }
  }

  lemma {:induction false} CreatedIndicesBelow(kept: map<string, Pose>, known: set<string>, listing: seq<ListedModel>)
    ensures forall k :: k in CreatedIndices(kept, known, listing) ==> k < |listing|
  {
    if listing != [] {
      CreatedIndicesBelow(kept, known, listing[..|listing| - 1]);
    }
  }

  /** The map a pass leaves: the unlisted known names erased (when there are any), then every listed model inserted. */
  function PassPoses(m: map<string, Pose>, listing: seq<ListedModel>): map<string, Pose>
  {
    Inserted(Kept(m, listing), PoseEntries(listing))
  }

  /** The map after the removals of a pass. */
  function Kept(m: map<string, Pose>, listing: seq<ListedModel>): map<string, Pose>
  {
    var removed := m.Keys - ListedNames(listing);
    if |removed| > 0 && |m.Keys| > 0 then m - removed else m
  }

  /** The entries of the listing name exactly the listed names. */
  lemma PoseEntriesKeys(listing: seq<ListedModel>, n: string)
    ensures HasKey(PoseEntries(listing), n) <==> n in ListedNames(listing)
  {
    var entries := PoseEntries(listing);
    if HasKey(entries, n) {
      var j :| 0 <= j < |entries| && entries[j].0 == n;
      assert listing[j].name == n;
    }
    if n in ListedNames(listing) {
      var j :| 0 <= j < |listing| && listing[j].name == n;
      assert entries[j].0 == n;
    }
  }

  /** After a pass the names are exactly the listed ones. */
  lemma PassKeys(m: map<string, Pose>, listing: seq<ListedModel>, n: string)
    ensures n in PassPoses(m, listing) <==> n in ListedNames(listing)
  {
    InsertedKeys(Kept(m, listing), PoseEntries(listing), n);
    PoseEntriesKeys(listing, n);
  }

  /** A listed name that was known keeps its pose: the insertion does not overwrite it. */
  lemma PassKeepsKnown(m: map<string, Pose>, listing: seq<ListedModel>, n: string)
    requires n in m && n in ListedNames(listing)
    ensures n in PassPoses(m, listing) && PassPoses(m, listing)[n] == m[n]
  {
    assert n in Kept(m, listing);
    InsertedKeeps(Kept(m, listing), PoseEntries(listing), n);
  }

  /** A new name holds the pose of its first listing. */
  lemma PassNewFirstPose(m: map<string, Pose>, listing: seq<ListedModel>, i: int)
    requires 0 <= i < |listing| && listing[i].name !in m
    requires forall j :: 0 <= j < i ==> listing[j].name != listing[i].name
    ensures listing[i].name in PassPoses(m, listing) && PassPoses(m, listing)[listing[i].name] == listing[i].pose
  {
    InsertedFirstWins(Kept(m, listing), PoseEntries(listing), i);
  }

  /**
   * The prims created are those of the new names' first listings, and none
   * at all on a pass that started with no names.
   */
  lemma PassCreated(m: map<string, Pose>, listing: seq<ListedModel>, i: int)
    ensures i in CreatedIndices(Kept(m, listing), m.Keys, listing) <==>
      0 <= i < |listing| && |m.Keys| > 0 && listing[i].name !in m &&
      forall j :: 0 <= j < i ==> listing[j].name != listing[i].name
  {
    CreatedIndicesMeaning(Kept(m, listing), m.Keys, listing, i);
    if 0 <= i < |listing| {
      assert listing[i].name in ListedNames(listing);
    }
  }

  /** Whether a model has a sphere visual, whose creation sets the added-prim flag. */
  predicate HasSphere(r: ListedModel)
  {
    exists l, v :: l in r.links && v in l.visuals && v.geometry == SphereGeom
  }

  /** The stage edits of one pass. */
  datatype PassEdits = PassEdits(removedPrims: set<string>, created: seq<nat>)

  /** The state of the program that the worker and the pose callback share. */
  class LiveSync {
    var modelPoses: map<string, Pose>
    var addedPrim: bool

    constructor ()
      ensures modelPoses == map[] && !addedPrim
    {
      modelPoses := map[];
      addedPrim := false;
    }

    /** `cb`: each pose of the message overwrites, corrected, the pose of a name already present. */
    method Cb(msgs: seq<PoseMsg>, correct: Pose -> Pose)
      modifies this
      ensures modelPoses == Refreshed(old(modelPoses), msgs, correct) && addedPrim == old(addedPrim)
    {
      var i := 0;
      while i < |msgs|
        invariant 0 <= i <= |msgs|
        invariant modelPoses == Refreshed(old(modelPoses), msgs[..i], correct) && addedPrim == old(addedPrim)
      {
        assert msgs[..i + 1][..i] == msgs[..i];
        if msgs[i].name in modelPoses {
          modelPoses := modelPoses[msgs[i].name := correct(msgs[i].pose)];
        }
        i := i + 1;
      }
      assert msgs[..i] == msgs;
    }

    /**
     * One pass of the worker given the scene listing (`None` when the
     * request failed): the removals, then the creations and
     * insertions; a created sphere sets the added-prim flag.
     */
    method Pass(listing: Option<seq<ListedModel>>) returns (edits: PassEdits)
      modifies this
      ensures listing.None? ==> modelPoses == old(modelPoses) && addedPrim == old(addedPrim) && edits == PassEdits({}, [])
      ensures listing.Some? ==>
        var known := old(modelPoses).Keys;
        var removed := known - ListedNames(listing.value);
        modelPoses == PassPoses(old(modelPoses), listing.value) &&
        edits.removedPrims == (if |removed| > 0 && |known| > 0 then set n | n in removed :: "/shapes/" + n else {}) &&
        edits.created == CreatedIndices(Kept(old(modelPoses), listing.value), known, listing.value) &&
        (addedPrim <==> old(addedPrim) || exists k :: k in edits.created && k < |listing.value| && HasSphere(listing.value[k]))
    {
      edits := PassEdits({}, []);
      if listing.None? {
        return;
      }
      var received := listing.value;
      var known := modelPoses.Keys;
      var removed := known - ListedNames(received);
      var removedPrims := {};
      if |removed| > 0 && |known| > 0 {
        removedPrims := EraseAll(removed);
      }
      assert modelPoses == Kept(old(modelPoses), received);
      var created := CreateAndInsert(received, known);
      edits := PassEdits(removedPrims, created);
    }

    /** The removal loop: each removed name loses its prim and its pose. */
    method EraseAll(removed: set<string>) returns (removedPrims: set<string>)
      modifies this
      ensures modelPoses == old(modelPoses) - removed && addedPrim == old(addedPrim)
      ensures removedPrims == set n | n in removed :: "/shapes/" + n
    {
      removedPrims := {};
      var rest := removed;
      while rest != {}
        invariant rest <= removed
        invariant modelPoses == old(modelPoses) - (removed - rest) && addedPrim == old(addedPrim)
        invariant removedPrims == set n | n in removed - rest :: "/shapes/" + n
        decreases rest
      {
        var name :| name in rest;
        removedPrims := removedPrims + {"/shapes/" + name};
        modelPoses := modelPoses - {name};
        rest := rest - {name};
      }
    }

    /**
     * The listing loop: a model not in the map, on a pass that started with
     * known names, gets its prims (a sphere visual setting the flag); every
     * listed model is then inserted without overwriting.
     */
    method CreateAndInsert(received: seq<ListedModel>, known: set<string>) returns (created: seq<nat>)
      modifies this
      ensures modelPoses == Inserted(old(modelPoses), PoseEntries(received))
      ensures created == CreatedIndices(old(modelPoses), known, received)
      ensures addedPrim <==> old(addedPrim) || exists k :: k in created && k < |received| && HasSphere(received[k])
    {
      created := [];
      var i := 0;
      while i < |received|
        invariant 0 <= i <= |received|
        invariant modelPoses == Inserted(old(modelPoses), PoseEntries(received[..i]))
        invariant created == CreatedIndices(old(modelPoses), known, received[..i])
        invariant forall k :: k in created ==> k < i
        invariant addedPrim <==> old(addedPrim) || exists k :: k in created && k < |received| && HasSphere(received[k])
      {
        var r := received[i];
        assert received[..i + 1][..i] == received[..i];
        assert PoseEntries(received[..i + 1])[..i] == PoseEntries(received[..i]);
        if r.name !in modelPoses && |known| > 0 {
          var sphere := DefinePrims(r);
          addedPrim := addedPrim || sphere;
          created := created + [i];
        }
        modelPoses := if r.name in modelPoses then modelPoses else modelPoses[r.name := r.pose];
        i := i + 1;
      }
      assert received[..i] == received;
    }

    /** `omniUsdLiveProcess` follows a save exactly when a prim was added since the last one, and clears the flag. */
    method AfterSave() returns (liveProcess: bool)
      modifies this
      ensures liveProcess == old(addedPrim) && !addedPrim && modelPoses == old(modelPoses)
    {
      liveProcess := false;
      if addedPrim {
        addedPrim := false;
        liveProcess := true;
      }
    }
  }

  /** The visual loop of a new model: whether one of its visuals is a sphere (the only geometry that sets the flag). */
  method DefinePrims(r: ListedModel) returns (sphere: bool)
    ensures sphere <==> HasSphere(r)
  {
    sphere := false;
    var k := 0;
    while k < |r.links|
      invariant 0 <= k <= |r.links|
      invariant sphere <==> exists l, v :: l in r.links[..k] && v in l.visuals && v.geometry == SphereGeom
    {
      var link := r.links[k];
      assert r.links[..k + 1] == r.links[..k] + [link];
      var v := 0;
      var here := false;
      while v < |link.visuals|
        invariant 0 <= v <= |link.visuals|
        invariant here <==> exists w :: w in link.visuals[..v] && w.geometry == SphereGeom
      {
        assert link.visuals[..v + 1] == link.visuals[..v] + [link.visuals[v]];
        if link.visuals[v].geometry == SphereGeom {
          here := true;
        }
        v := v + 1;
      }
      assert link.visuals[..v] == link.visuals;
      sphere := sphere || here;
      k := k + 1;
    }
    assert r.links[..k] == r.links;
  }
}
