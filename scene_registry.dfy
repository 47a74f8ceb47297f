/**
 * The model registry of the live-sync scene (`Scene` and its twin
 * `SceneImpl`, which implement the same operations): a map from model name
 * to the model's pose, id and joints, kept in step with the simulator's
 * pose and joint topics and reconciled with the simulator's scene listing.
 */
module SceneRegistry {
  import opened Wrappers
  import opened Maps

  /** A pose as the messages carry it: a position and a (w, x, y, z) quaternion. */
  datatype Pose = Pose(x: real, y: real, z: real, qw: real, qx: real, qy: real, qz: real)

  /** A joint of a model: its pose and the position of its first axis. */
  datatype Joint = Joint(pose: Pose, position: real)

  /** A registered model. */
  datatype Model = Model(pose: Pose, id: nat, joints: map<string, Joint>)

  /** The model id is a 32-bit `uint`; the message's 64-bit id is truncated to it. */
  function ModelId(msgId: nat): (id: nat)
    ensures id < 0x1_0000_0000
    ensures msgId < 0x1_0000_0000 ==> id == msgId
  {
    msgId % 0x1_0000_0000
  }

  /** One pose of a pose-vector message. */
  datatype PoseMsg = PoseMsg(name: string, id: nat, pose: Pose)

  /** One joint of a joint message. */
  datatype JointState = JointState(name: string, pose: Pose, axisPosition: real)

  /** A link of a model in the scene listing, with the names of its visuals. */
  datatype ReceivedLink = ReceivedLink(name: string, visuals: seq<string>)

  /** A model of the scene listing. */
  datatype ReceivedModel = ReceivedModel(name: string, id: nat, pose: Pose, links: seq<ReceivedLink>)

  // ---------------------------------------------------------------------
  // Pose and joint updates

  /** `SetModelPose`: a present model takes the corrected pose; an absent name changes nothing. */
  function PoseSet(m: map<string, Model>, name: string, pose: Pose, correct: Pose -> Pose): map<string, Model>
  {
    if name in m then m[name := m[name].(pose := correct(pose))] else m
  }

  /** Setting a pose never adds or drops a model, and touches only the named one, and only its pose. */
  lemma PoseSetMeaning(m: map<string, Model>, name: string, pose: Pose, correct: Pose -> Pose)
    ensures PoseSet(m, name, pose, correct).Keys == m.Keys
    ensures forall n :: n in m && n != name ==> PoseSet(m, name, pose, correct)[n] == m[n]
    ensures name in m ==> PoseSet(m, name, pose, correct)[name] == Model(correct(pose), m[name].id, m[name].joints)
  {
  }

  /** The models after a pose-vector message: each pose overwrites the pose and id of a model already present. */
  function PosesApplied(m: map<string, Model>, msgs: seq<PoseMsg>, correct: Pose -> Pose): map<string, Model>
  {
    if msgs == [] then m
    else
      var msg := msgs[|msgs| - 1];
      var before := PosesApplied(m, msgs[..|msgs| - 1], correct);
      if msg.name in before then before[msg.name := before[msg.name].(pose := correct(msg.pose), id := ModelId(msg.id))]
      else before
  }

  /** A pose message never inserts or drops a model, and keeps every model's joints. */
  lemma {:induction false} PosesAppliedKeepsModels(m: map<string, Model>, msgs: seq<PoseMsg>, correct: Pose -> Pose)
    ensures PosesApplied(m, msgs, correct).Keys == m.Keys
    ensures forall n :: n in m ==> PosesApplied(m, msgs, correct)[n].joints == m[n].joints
  {
    if msgs != [] {
      PosesAppliedKeepsModels(m, msgs[..|msgs| - 1], correct);
    }
  }

  /** The last pose sent for a present model sets its pose (corrected) and id. */
  lemma {:induction false} PosesAppliedLastWins(m: map<string, Model>, msgs: seq<PoseMsg>, correct: Pose -> Pose, i: nat)
    requires i < |msgs| && msgs[i].name in m
    requires forall j :: i < j < |msgs| ==> msgs[j].name != msgs[i].name
    ensures msgs[i].name in PosesApplied(m, msgs, correct) && PosesApplied(m, msgs, correct)[msgs[i].name] ==
      Model(correct(msgs[i].pose), ModelId(msgs[i].id), m[msgs[i].name].joints)
  {
    var init := msgs[..|msgs| - 1];
    PosesAppliedKeepsModels(m, init, correct);
    PosesAppliedKeepsModels(m, msgs, correct);
    if i < |init| {
      assert init[i] == msgs[i];
      PosesAppliedLastWins(m, init, correct, i);
    }
  }

  /** A model no pose names is unchanged. */
  lemma {:induction false} PosesAppliedOthers(m: map<string, Model>, msgs: seq<PoseMsg>, correct: Pose -> Pose, n: string)
    requires n in m && forall i :: 0 <= i < |msgs| ==> msgs[i].name != n
    ensures n in PosesApplied(m, msgs, correct) && PosesApplied(m, msgs, correct)[n] == m[n]
  {
    if msgs != [] {
      var init := msgs[..|msgs| - 1];
      forall i | 0 <= i < |init|
        ensures init[i].name != n
      {
        assert init[i] == msgs[i];
      }
      PosesAppliedKeepsModels(m, init, correct);
      PosesAppliedOthers(m, init, correct, n);
    }
  }

  /** The joint entries of a joint message, in message order. */
  function JointEntries(joints: seq<JointState>): (entries: seq<(string, Joint)>)
    ensures |entries| == |joints|
    ensures forall i :: 0 <= i < |joints| ==> entries[i] == (joints[i].name, Joint(joints[i].pose, joints[i].axisPosition))
  {
    seq(|joints|, i requires 0 <= i < |joints| => (joints[i].name, Joint(joints[i].pose, joints[i].axisPosition)))
  }

  /** The models after a joint message: a known model's joints are upserted by name; an unknown model is ignored. */
  function JointsApplied(m: map<string, Model>, modelName: string, joints: seq<JointState>): map<string, Model>
  {
    if modelName in m then m[modelName := m[modelName].(joints := Upserted(m[modelName].joints, JointEntries(joints)))]
    else m
  }

  /**
   * A joint message for an unknown model changes nothing; for a known one,
   * the other models and the model's pose and id are unchanged, its joints
   * afterwards are its old joints and the message's, the last state sent
   * for a joint wins, and joints the message does not name are unchanged.
   */
  lemma JointsAppliedMeaning(m: map<string, Model>, modelName: string, joints: seq<JointState>)
    ensures modelName !in m ==> JointsApplied(m, modelName, joints) == m
    ensures JointsApplied(m, modelName, joints).Keys == m.Keys
    ensures forall n :: n in m && n != modelName ==> JointsApplied(m, modelName, joints)[n] == m[n]
    ensures modelName in m ==>
      var after := JointsApplied(m, modelName, joints)[modelName];
      after.pose == m[modelName].pose && after.id == m[modelName].id &&
      (forall j :: j in after.joints <==> j in m[modelName].joints || exists i :: 0 <= i < |joints| && joints[i].name == j) &&
      (forall i :: 0 <= i < |joints| && (forall k :: i < k < |joints| ==> joints[k].name != joints[i].name) ==>
        after.joints[joints[i].name] == Joint(joints[i].pose, joints[i].axisPosition)) &&
      (forall j :: j in m[modelName].joints && (forall i :: 0 <= i < |joints| ==> joints[i].name != j) ==>
        after.joints[j] == m[modelName].joints[j])
  {
    if modelName in m {
      var old_ := m[modelName].joints;
      var entries := JointEntries(joints);
      var after := Upserted(old_, entries);
      forall j
        ensures j in after <==> j in old_ || exists i :: 0 <= i < |joints| && joints[i].name == j
      {
        UpsertedKeys(old_, entries, j);
        if HasKey(entries, j) {
          var i :| 0 <= i < |entries| && entries[i].0 == j;
          assert joints[i].name == j;
        }
        if exists i :: 0 <= i < |joints| && joints[i].name == j {
          var i :| 0 <= i < |joints| && joints[i].name == j;
          assert entries[i].0 == j;
        }
      }
      forall i | 0 <= i < |joints| && (forall k :: i < k < |joints| ==> joints[k].name != joints[i].name)
        ensures after[joints[i].name] == Joint(joints[i].pose, joints[i].axisPosition)
      {
        UpsertedLastWins(old_, entries, i);
      }
      forall j | j in old_ && (forall i :: 0 <= i < |joints| ==> joints[i].name != j)
        ensures after[j] == old_[j]
      {
        assert !HasKey(entries, j);
        UpsertedOthers(old_, entries, j);
      }
    }
  }

  // ---------------------------------------------------------------------
  // Reconciliation with the scene listing

  /** The prim path of a model of the world. */
  function ModelPath(world: string, name: string): string
  {
    "/" + world + "/" + name
  }

  /** Whether some link of the model has a visual. */
  predicate HasVisual(r: ReceivedModel)
  {
    exists l :: l in r.links && l.visuals != []
  }

  /** The registry entry of a newly listed model: its pose and id, and no joints. */
  function NewModel(r: ReceivedModel): Model
  {
    Model(r.pose, ModelId(r.id), map[])
  }

  /**
   * Whether a listed model is inserted by a pass that started from the
   * names `known`: it is new, and either its prim is on the stage already or
   * one of its links has a visual.
   */
  predicate Admitted(world: string, known: set<string>, r: ReceivedModel, primExists: string -> bool)
  {
    r.name !in known && (primExists(ModelPath(world, r.name)) || HasVisual(r))
  }

  /** The insertions of a pass, in listing order. */
  function Admissions(world: string, known: set<string>, received: seq<ReceivedModel>,
                      primExists: string -> bool): seq<(string, Model)>
  {
    if received == [] then []
    else
      var r := received[|received| - 1];
      Admissions(world, known, received[..|received| - 1], primExists) +
        (if Admitted(world, known, r, primExists) then [(r.name, NewModel(r))] else [])
  }

  /** The names of the listing. */
  function ReceivedNames(received: seq<ReceivedModel>): set<string>
  {
    set i | 0 <= i < |received| :: received[i].name
  }

  /**
   * One pass of the model worker over a listing: the known names missing
   * from the listing are erased (when the registry and the difference are
   * non-empty), then the admitted new models are inserted without
   * overwriting.
   */
  function Reconciled(world: string, m: map<string, Model>, received: seq<ReceivedModel>,
                      primExists: string -> bool): map<string, Model>
  {
    var removed := m.Keys - ReceivedNames(received);
    var kept := if |removed| > 0 && |m.Keys| > 0 then m - removed else m;
    Inserted(kept, Admissions(world, m.Keys, received, primExists))
  }

  /** The admissions are exactly the admitted listed models. */
  lemma {:induction false} AdmissionsMeaning(world: string, known: set<string>, received: seq<ReceivedModel>,
                                             primExists: string -> bool, n: string)
    ensures HasKey(Admissions(world, known, received, primExists), n) <==>
      exists i :: 0 <= i < |received| && received[i].name == n && Admitted(world, known, received[i], primExists)
    ensures forall e :: e in Admissions(world, known, received, primExists) ==>
      exists i :: 0 <= i < |received| && Admitted(world, known, received[i], primExists) &&
        e == (received[i].name, NewModel(received[i]))
  {
    if received != [] {
      var init := received[..|received| - 1];
      var r := received[|received| - 1];
      var a := Admissions(world, known, received, primExists);
      var ai := Admissions(world, known, init, primExists);
      AdmissionsMeaning(world, known, init, primExists, n);
      assert a[..|ai|] == ai;
      assert init + [r] == received;
      if HasKey(a, n) {
        var k :| 0 <= k < |a| && a[k].0 == n;
        if k < |ai| {
          assert HasKey(ai, n);
          var i :| 0 <= i < |init| && init[i].name == n && Admitted(world, known, init[i], primExists);
          assert received[i] == init[i];
        } else {
          assert received[|received| - 1].name == n;
        }
      }
      if exists i :: 0 <= i < |received| && received[i].name == n && Admitted(world, known, received[i], primExists) {
        var i :| 0 <= i < |received| && received[i].name == n && Admitted(world, known, received[i], primExists);
        if i < |init| {
          assert init[i] == received[i];
          var k :| 0 <= k < |ai| && ai[k].0 == n;
          assert a[k] == ai[k];
        } else {
          assert a[|a| - 1].0 == n;
        }
      }
      forall e | e in a
        ensures exists i :: (0 <= i < |received| && Admitted(world, known, received[i], primExists) &&
                             e == (received[i].name, NewModel(received[i])))
      {
        var k :| 0 <= k < |a| && a[k] == e;
        if k < |ai| {
          assert e in ai;
          var i :| 0 <= i < |init| && Admitted(world, known, init[i], primExists) && e == (init[i].name, NewModel(init[i]));
          assert received[i] == init[i];
        } else {
          assert e == (r.name, NewModel(r));
        }
      }
    }
  }

  /**
   * After a pass: a known name is kept iff it is listed, and then its entry
   * is unchanged (insertion never overwrites); a new name is present iff some
   * listing of it is admitted, and then it holds the first such listing's model.
   */
  lemma ReconciledMeaning(world: string, m: map<string, Model>, received: seq<ReceivedModel>,
                          primExists: string -> bool, n: string)
    ensures n in m ==> (n in Reconciled(world, m, received, primExists) <==> n in ReceivedNames(received))
    ensures n in m && n in ReceivedNames(received) ==> Reconciled(world, m, received, primExists)[n] == m[n]
    ensures n !in m ==> (n in Reconciled(world, m, received, primExists) <==>
      exists i :: 0 <= i < |received| && received[i].name == n && Admitted(world, m.Keys, received[i], primExists))
    ensures n !in m ==> forall i :: (0 <= i < |received| && received[i].name == n &&
                                     Admitted(world, m.Keys, received[i], primExists) &&
                                     forall j :: 0 <= j < i ==> received[j].name != n || !Admitted(world, m.Keys, received[j], primExists)) ==>
      Reconciled(world, m, received, primExists)[n] == NewModel(received[i])
  {
    var removed := m.Keys - ReceivedNames(received);
    var kept := if |removed| > 0 && |m.Keys| > 0 then m - removed else m;
    var adm := Admissions(world, m.Keys, received, primExists);
    assert kept == m - removed;
    AdmissionsMeaning(world, m.Keys, received, primExists, n);
    InsertedKeys(kept, adm, n);
    if n in m && n !in ReceivedNames(received) {
      assert !HasKey(adm, n) by {
        forall e | e in adm
          ensures e.0 != n
        {
          var i :| 0 <= i < |received| && Admitted(world, m.Keys, received[i], primExists) &&
            e == (received[i].name, NewModel(received[i]));
        }
      }
    }
    if n in m && n in ReceivedNames(received) {
      InsertedKeeps(kept, adm, n);
    }
    if n !in m {
      forall i | 0 <= i < |received| && received[i].name == n && Admitted(world, m.Keys, received[i], primExists) &&
        (forall j :: 0 <= j < i ==> received[j].name != n || !Admitted(world, m.Keys, received[j], primExists))
        ensures Reconciled(world, m, received, primExists)[n] == NewModel(received[i])
      {
        FirstAdmission(world, m.Keys, received, primExists, i);
        var k :| FirstOfKey(adm, k, (n, NewModel(received[i])));
        InsertedFirstWins(kept, adm, k);
      }
    }
  }

  /** Entry `k` is `e`, and no earlier entry has its key. */
  predicate FirstOfKey(entries: seq<(string, Model)>, k: int, e: (string, Model))
  {
    0 <= k < |entries| && entries[k] == e && forall j :: 0 <= j < k ==> entries[j].0 != e.0
  }

  /** The first admitted listing of a name is the first admission of that name. */
  lemma {:induction false} FirstAdmission(world: string, known: set<string>, received: seq<ReceivedModel>,
                                          primExists: string -> bool, i: nat)
    requires i < |received| && Admitted(world, known, received[i], primExists)
    requires forall j :: 0 <= j < i ==> received[j].name != received[i].name || !Admitted(world, known, received[j], primExists)
    ensures exists k :: FirstOfKey(Admissions(world, known, received, primExists), k, (received[i].name, NewModel(received[i])))
  {
    var init := received[..|received| - 1];
    var adm := Admissions(world, known, received, primExists);
    var ai := Admissions(world, known, init, primExists);
    assert adm[..|ai|] == ai;
    if i < |init| {
      assert init[i] == received[i];
      forall j | 0 <= j < i
        ensures init[j].name != init[i].name || !Admitted(world, known, init[j], primExists)
      {
        assert init[j] == received[j];
      }
      FirstAdmission(world, known, init, primExists, i);
      var k :| FirstOfKey(ai, k, (received[i].name, NewModel(received[i])));
      assert adm[k] == ai[k];
      forall j | 0 <= j < k
        ensures adm[j].0 != received[i].name
      {
        assert adm[j] == ai[j];
      }
      assert FirstOfKey(adm, k, (received[i].name, NewModel(received[i])));
    } else {
      var n := received[i].name;
      forall e | e in ai
        ensures e.0 != n
      {
        AdmissionsMeaning(world, known, init, primExists, n);
        var j :| 0 <= j < |init| && Admitted(world, known, init[j], primExists) && e == (init[j].name, NewModel(init[j]));
        assert init[j] == received[j];
      }
      assert adm[|ai|] == (n, NewModel(received[i]));
      forall j | 0 <= j < |ai|
        ensures adm[j].0 != n
      {
        assert adm[j] == ai[j] && ai[j] in ai;
      }
      assert FirstOfKey(adm, |ai|, (n, NewModel(received[i])));
    }
  }

  /** The xform prims a pass defines for a new model without a prim: the model's, then each link's. */
  function DefinedPaths(world: string, r: ReceivedModel): seq<string>
  {
    [ModelPath(world, r.name)] + LinkPaths(ModelPath(world, r.name), r.links)
  }

  function LinkPaths(modelPath: string, links: seq<ReceivedLink>): seq<string>
  {
    if links == [] then [] else LinkPaths(modelPath, links[..|links| - 1]) + [modelPath + "/" + links[|links| - 1].name]
  }

  /** The xform prims a whole pass defines, in listing order. */
  function PassDefinitions(world: string, known: set<string>, received: seq<ReceivedModel>,
                           primExists: string -> bool): seq<string>
  {
    if received == [] then []
    else
      var r := received[|received| - 1];
      PassDefinitions(world, known, received[..|received| - 1], primExists) +
        (if r.name !in known && !primExists(ModelPath(world, r.name)) then DefinedPaths(world, r) else [])
  }

  /** A pass defines prims only for models that are new and not yet on the stage, the model first. */
  lemma DefinedPathsStartAtModel(world: string, r: ReceivedModel)
    ensures |DefinedPaths(world, r)| == |r.links| + 1
    ensures DefinedPaths(world, r)[0] == ModelPath(world, r.name)
    ensures forall k :: 0 <= k < |r.links| ==> DefinedPaths(world, r)[k + 1] == ModelPath(world, r.name) + "/" + r.links[k].name
  {
    LinkPathsMeaning(ModelPath(world, r.name), r.links);
  }

  lemma {:induction false} LinkPathsMeaning(modelPath: string, links: seq<ReceivedLink>)
    ensures |LinkPaths(modelPath, links)| == |links|
    ensures forall k :: 0 <= k < |links| ==> LinkPaths(modelPath, links)[k] == modelPath + "/" + links[k].name
  {
    if links != [] {
      var init := links[..|links| - 1];
      LinkPathsMeaning(modelPath, init);
      forall k | 0 <= k < |init|
        ensures links[k] == init[k]
      {
      }
    }
  }

  /** The result of one pass of the model worker on the stage. */
  datatype StageEdits = StageEdits(removedPrims: set<string>, definedXforms: seq<string>)

  /** The registry of a scene. */
  class Scene {
    const worldName: string
    var models: map<string, Model>

    /** A scene of a world with no models. */
    constructor (worldName: string)
      ensures this.worldName == worldName && models == map[]
    {
      this.worldName := worldName;
      models := map[];
    }

    /** `GetModels`: a copy of the registry as it is at the call. */
    method GetModels() returns (result: map<string, Model>)
      ensures result == models
    {
      result := models;
    }

    /** `SetModelPose`: true iff the model is present, and then its pose is the corrected pose. */
    method SetModelPose(name: string, pose: Pose, correct: Pose -> Pose) returns (ok: bool)
      modifies this
      ensures ok <==> name in old(models)
      ensures models == PoseSet(old(models), name, pose, correct)
    {
      if name in models {
        models := models[name := models[name].(pose := correct(pose))];
        return true;
      }
      return false;
    }

    /** `RemoveModel`: true iff the name was present; it is absent afterwards and the rest is unchanged. */
    method RemoveModel(name: string) returns (ok: bool)
      modifies this
      ensures ok <==> name in old(models)
      ensures models == old(models) - {name}
    {
      ok := name in models;
      models := models - {name};
    }

    /** `CallbackPoses`: each pose of the message updates a model already present. */
    method CallbackPoses(msgs: seq<PoseMsg>, correct: Pose -> Pose)
      modifies this
      ensures models == PosesApplied(old(models), msgs, correct)
    {
      var i := 0;
      while i < |msgs|
        invariant 0 <= i <= |msgs|
        invariant models == PosesApplied(old(models), msgs[..i], correct)
      {
        assert msgs[..i + 1][..i] == msgs[..i];
        var msg := msgs[i];
        if msg.name in models {
          models := models[msg.name := models[msg.name].(pose := correct(msg.pose), id := ModelId(msg.id))];
        }
        i := i + 1;
      }
      assert msgs[..i] == msgs;
    }

    /** `CallbackJoint`: the joints of a known model are upserted in message order. */
    method CallbackJoint(modelName: string, joints: seq<JointState>)
      modifies this
      ensures models == JointsApplied(old(models), modelName, joints)
    {
      if modelName !in models {
        return;
      }
      var table := models[modelName].joints;
      ghost var entries := JointEntries(joints);
      var i := 0;
      while i < |joints|
        invariant 0 <= i <= |joints|
        invariant table == Upserted(old(models)[modelName].joints, entries[..i])
        invariant models == old(models)
      {
        assert entries[..i + 1][..i] == entries[..i];
        table := table[joints[i].name := Joint(joints[i].pose, joints[i].axisPosition)];
        i := i + 1;
      }
      assert entries[..i] == entries;
      models := models[modelName := models[modelName].(joints := table)];
    }

    /**
     * One pass of `modelWorker` given the scene listing (`None` when the
     * request failed) and which prims are on the stage.
     */
    method Reconcile(listing: Option<seq<ReceivedModel>>, primExists: string -> bool) returns (edits: StageEdits)
      modifies this
      ensures listing.None? ==> models == old(models) && edits == StageEdits({}, [])
      ensures listing.Some? ==>
        var received := listing.value;
        models == Reconciled(worldName, old(models), received, primExists) &&
        edits.removedPrims == (set n | n in old(models).Keys - ReceivedNames(received) :: ModelPath(worldName, n)) &&
        edits.definedXforms == PassDefinitions(worldName, old(models).Keys, received, primExists)
    {
      edits := StageEdits({}, []);
      if listing.None? {
        return;
      }
      var received := listing.value;
      var modelsTmp := GetModels();
      var removed := RemovedNames(modelsTmp.Keys, received);
      assert removed * modelsTmp.Keys == removed;
      var removedPrims := {};
      if |removed| > 0 && |modelsTmp.Keys| > 0 {
        removedPrims := EraseAll(removed, modelsTmp.Keys);
      } else {
        assert removed == {};
        assert removedPrims == set n | n in removed :: ModelPath(worldName, n);
      }
      ghost var kept := models;
      assert kept == if |removed| > 0 && |modelsTmp.Keys| > 0 then modelsTmp - removed else modelsTmp;
      var defined := AddNew(received, modelsTmp.Keys, primExists);
      edits := StageEdits(removedPrims, defined);
    }

    /** The removal loop of a pass: each removed name still known loses its prim and its entry. */
    method EraseAll(removed: set<string>, known: set<string>) returns (removedPrims: set<string>)
      modifies this
      ensures models == old(models) - (removed * known)
      ensures removedPrims == set n | n in removed * known :: ModelPath(worldName, n)
    {
      removedPrims := {};
      var rest := removed;
      while rest != {}
        invariant rest <= removed
        invariant models == old(models) - ((removed - rest) * known)
        invariant removedPrims == set n | n in (removed - rest) * known :: ModelPath(worldName, n)
        decreases rest
      {
        var name :| name in rest;
        if name in known {
          removedPrims := removedPrims + {ModelPath(worldName, name)};
          models := models - {name};
        }
        rest := rest - {name};
      }
    }

    /** The insertion loop of a pass: new listed models, inserted without overwriting. */
    method AddNew(received: seq<ReceivedModel>, known: set<string>, primExists: string -> bool)
      returns (defined: seq<string>)
      modifies this
      ensures models == Inserted(old(models), Admissions(worldName, known, received, primExists))
      ensures defined == PassDefinitions(worldName, known, received, primExists)
    {
      defined := [];
      var i := 0;
      while i < |received|
        invariant 0 <= i <= |received|
        invariant models == Inserted(old(models), Admissions(worldName, known, received[..i], primExists))
        invariant defined == PassDefinitions(worldName, known, received[..i], primExists)
      {
        var r := received[i];
        AdmissionStep(worldName, known, received, primExists, old(models), i);
        if r.name !in known {
          var path := ModelPath(worldName, r.name);
          if primExists(path) {
            models := if r.name in models then models else models[r.name := NewModel(r)];
          } else {
            var linkPaths := InsertPerVisual(r, path);
            defined := defined + linkPaths;
          }
        }
        i := i + 1;
      }
      assert received[..i] == received;
    }

    /** The link loop for a new model: each link's xform is defined, and each visual inserts the model. */
    method InsertPerVisual(r: ReceivedModel, modelPath: string) returns (defined: seq<string>)
      modifies this
      ensures models == if HasVisual(r) && r.name !in old(models) then old(models)[r.name := NewModel(r)] else old(models)
      ensures defined == [modelPath] + LinkPaths(modelPath, r.links)
    {
      defined := [modelPath];
      var k := 0;
      while k < |r.links|
        invariant 0 <= k <= |r.links|
        invariant defined == [modelPath] + LinkPaths(modelPath, r.links[..k])
        invariant var seen := exists l :: l in r.links[..k] && l.visuals != [];
          models == if seen && r.name !in old(models) then old(models)[r.name := NewModel(r)] else old(models)
      {
        assert r.links[..k + 1][..k] == r.links[..k];
        var link := r.links[k];
        defined := defined + [modelPath + "/" + link.name];
        var v := 0;
        while v < |link.visuals|
          invariant 0 <= v <= |link.visuals|
          invariant var seen := (exists l :: l in r.links[..k] && l.visuals != []) || v > 0;
            models == if seen && r.name !in old(models) then old(models)[r.name := NewModel(r)] else old(models)
        {
          models := if r.name in models then models else models[r.name := NewModel(r)];
          v := v + 1;
        }
        assert link in r.links[..k + 1];
        k := k + 1;
      }
      assert r.links[..k] == r.links;
    }
  }

  /** One listed model more: its admission inserts it (unless present), and its definitions follow the earlier ones. */
  lemma AdmissionStep(world: string, known: set<string>, received: seq<ReceivedModel>, primExists: string -> bool,
                      m0: map<string, Model>, i: nat)
    requires i < |received|
    ensures var r := received[i];
      var before := Inserted(m0, Admissions(world, known, received[..i], primExists));
      Inserted(m0, Admissions(world, known, received[..i + 1], primExists)) ==
        (if Admitted(world, known, r, primExists) && r.name !in before then before[r.name := NewModel(r)] else before) &&
      PassDefinitions(world, known, received[..i + 1], primExists) ==
        PassDefinitions(world, known, received[..i], primExists) +
          (if r.name !in known && !primExists(ModelPath(world, r.name)) then DefinedPaths(world, r) else [])
  {
    var r := received[i];
    assert received[..i + 1][..i] == received[..i];
    var a := Admissions(world, known, received[..i], primExists);
    assert received[..i + 1][i] == r;
    if Admitted(world, known, r, primExists) {
      assert Admissions(world, known, received[..i + 1], primExists) == a + [(r.name, NewModel(r))];
      assert (a + [(r.name, NewModel(r))])[..|a|] == a;
    } else {
      assert Admissions(world, known, received[..i + 1], primExists) == a;
    }
  }

  /** `std::set_difference` of the known names and the listed names. */
  function RemovedNames(known: set<string>, received: seq<ReceivedModel>): set<string>
  {
    known - ReceivedNames(received)
  }
}
