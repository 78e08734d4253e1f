/** AzureKinectTester: a fixed pool of tracked bodies filled by the capture loop, the
    closest-body scan and the per-frame hand-target update. */
module KinectTester {
  import opened Wrappers
  import opened Geometry
  import opened JointIds

  /** Start allocates 20 pooled bodies, each built with new Body(100). */
  const PoolCapacity: nat := 20
  const MaxJointsLength: nat := 100

  /** The sensor's maximum range, the scan's initial minimum. The model scans squared
      distances against its square; SquaredScanAgrees shows this selects the same body. */
  const MaxDistance: real := 5000.0
  const MaxDistanceSquared: real := MaxDistance * MaxDistance

  /** One tracked body: its joints' 3D positions in sensor space, indexed by JointId. */
  datatype Body = Body(jointPositions: seq<Vec3>)

  /** Every joint of the JointId enumeration has a slot. */
  predicate WellFormed(b: Body)
  {
    |b.jointPositions| >= JointCount
  }

  /** A body as Start allocates it: 100 joint slots, all at the origin. */
  function EmptyBody(): (b: Body)
    ensures WellFormed(b)
  {
    Body(seq(MaxJointsLength, _ => Origin))
  }

  /** A popped tracking result: absent on a timeout, otherwise the bodies it holds. */
  predicate FrameWellFormed(frame: Option<seq<Body>>)
  {
    frame.Some? ==> forall i :: 0 <= i < |frame.value| ==> WellFormed(frame.value[i])
  }

  function Min(a: nat, b: nat): nat
  {
    if a <= b then a else b
  }

  /** Squared distance of each scanned body's pelvis from the sensor origin. */
  function PelvisDistances(pool: seq<Body>, n: nat): seq<real>
    requires n <= |pool|
    requires forall i :: 0 <= i < n ==> WellFormed(pool[i])
  {
    seq(n, i requires 0 <= i < n && WellFormed(pool[i]) => MagnitudeSquared(pool[i].jointPositions[Pelvis]))
  }

  /** The body FindClosestTrackedBody selects from the scanned distances ds with the
      running minimum starting at limit: -1 when no body is nearer than limit, otherwise
      the first index of minimal distance. */
  function ClosestBody(ds: seq<real>, limit: real): (r: int)
    ensures -1 <= r < |ds|
    ensures r == -1 <==> forall i :: 0 <= i < |ds| ==> ds[i] >= limit
    ensures r >= 0 ==> ds[r] < limit
    ensures r >= 0 ==> forall i :: 0 <= i < |ds| ==> ds[r] <= ds[i]
    ensures r >= 0 ==> forall i :: 0 <= i < r ==> ds[r] < ds[i]
    decreases |ds|
  {
    if |ds| == 0 then -1
    else
      var r := ClosestBody(ds[..|ds| - 1], limit);
      var best := if r == -1 then limit else ds[r];
      if ds[|ds| - 1] < best then |ds| - 1 else r
  }

  /** The scan depends only on how distances compare with each other and with the limit:
      two lists ordered alike select the same body. */
  lemma ScanDependsOnOrder(ms: seq<real>, lm: real, ds: seq<real>, ld: real)
    requires |ms| == |ds|
    requires forall i :: 0 <= i < |ms| ==> (ms[i] < lm <==> ds[i] < ld)
    requires forall i, j :: 0 <= i < |ms| && 0 <= j < |ms| ==> (ms[i] < ms[j] <==> ds[i] < ds[j])
    ensures ClosestBody(ds, ld) == ClosestBody(ms, lm)
  {
  }

  /** Squares of non-negative numbers compare as the numbers do. */
  lemma SquareOrder(a: real, b: real, sa: real, sb: real)
    requires 0.0 <= a && 0.0 <= b && sa == a * a && sb == b * b
    ensures a < b <==> sa < sb
  {
    SquareMonotone(a, b);
  }

  /** Squared non-negative distances compare with each other, and with the squared
      limit, as the distances do. */
  lemma SquaresOrderedAlike(ms: seq<real>, ds: seq<real>, limit: real)
    requires |ms| == |ds| && 0.0 <= limit
    requires forall i :: 0 <= i < |ms| ==> 0.0 <= ms[i] && ds[i] == ms[i] * ms[i]
    ensures forall i :: 0 <= i < |ms| ==> (ms[i] < limit <==> ds[i] < limit * limit)
    ensures forall i, j :: 0 <= i < |ms| && 0 <= j < |ms| ==> (ms[i] < ms[j] <==> ds[i] < ds[j])
  {
    forall i | 0 <= i < |ms|
      ensures ms[i] < limit <==> ds[i] < limit * limit
    {
      var m, d := ms[i], ds[i];
      SquareOrder(m, limit, d, limit * limit);
    }
    forall i, j | 0 <= i < |ms| && 0 <= j < |ms|
      ensures ms[i] < ms[j] <==> ds[i] < ds[j]
    {
      var mi, mj, di, dj := ms[i], ms[j], ds[i], ds[j];
      SquareOrder(mi, mj, di, dj);
    }
  }

  /** Scanning the squared distances against 5000 squared picks the same body as the
      source's scan of the magnitudes ms against 5000. */
  lemma SquaredScanAgrees(ms: seq<real>, ds: seq<real>)
    requires |ms| == |ds|
    requires forall i :: 0 <= i < |ms| ==> 0.0 <= ms[i] && ds[i] == ms[i] * ms[i]
    ensures ClosestBody(ds, MaxDistanceSquared) == ClosestBody(ms, MaxDistance)
  {
    SquaresOrderedAlike(ms, ds, MaxDistance);
    ScanDependsOnOrder(ms, MaxDistance, ds, MaxDistanceSquared);
  }

  /** Update's guard: tracking has started and the last published frame had bodies. */
  predicate ShouldTrack(running: bool, count: nat)
  {
    running && count > 0
  }

  /** The guard does not imply that a body is selected: one body standing exactly at the
      maximum range passes the guard, yet the scan returns -1, which UpdateTracker then
      uses as an index into the pool. */
  lemma GuardAdmitsNoSelection()
    ensures var pool := [Body(seq(JointCount, j => if j == Pelvis then Vec3(MaxDistance, 0.0, 0.0) else Origin))];
      ShouldTrack(true, |pool|) && ClosestBody(PelvisDistances(pool, |pool|), MaxDistanceSquared) == -1
  {
  }

  /** The most recent non-null result among the results popped so far. */
  function LastFrame(pops: seq<Option<seq<Body>>>): (r: Option<seq<Body>>)
    ensures r.None? <==> forall k :: 0 <= k < |pops| ==> pops[k].None?
    ensures r.Some? ==> exists k :: 0 <= k < |pops| && pops[k] == r && forall m :: k < m < |pops| ==> pops[m].None?
  {
    if |pops| == 0 then None
    else if pops[|pops| - 1].Some? then pops[|pops| - 1]
    else LastFrame(pops[..|pops| - 1])
  }

  class AzureKinectTester {
    var isSkeletalTrackingRunning: bool
    var numOfBodies: nat
    const bodies: array<Body>
    /** Positions last written to the rightHand and leftHand targets' transforms. */
    var rightHandPosition: Vec3
    var leftHandPosition: Vec3

    /** The pool has its fixed capacity and every slot has a position for every joint. */
    ghost predicate PoolValid()
      reads this, bodies
    {
      bodies.Length == PoolCapacity &&
      forall i :: 0 <= i < bodies.Length ==> WellFormed(bodies[i])
    }

    /** The published count does not exceed the pool. */
    ghost predicate Valid()
      reads this, bodies
    {
      PoolValid() && numOfBodies <= PoolCapacity
    }

    /** The scan's input: squared pelvis distances of the published bodies. */
    ghost function Distances(): seq<real>
      reads this, bodies
      requires Valid()
    {
      PelvisDistances(bodies[..], numOfBodies)
    }

    /** Start: allocates the pool once; the capture worker is not modelled as a thread. */
    constructor ()
      ensures Valid() && fresh(bodies)
      ensures !isSkeletalTrackingRunning && numOfBodies == 0
      ensures forall i :: 0 <= i < bodies.Length ==> bodies[i] == EmptyBody()
    {
      isSkeletalTrackingRunning := false;
      numOfBodies := 0;
      rightHandPosition, leftHandPosition := Origin, Origin;
      bodies := new Body[PoolCapacity];
      new;
      var i := 0;
      while i < PoolCapacity
        invariant 0 <= i <= PoolCapacity
        invariant !isSkeletalTrackingRunning && numOfBodies == 0
        invariant forall j :: 0 <= j < i ==> bodies[j] == EmptyBody()
      {
        bodies[i] := EmptyBody();
        i := i + 1;
      }
    }

    /** Scans the published bodies for the one whose pelvis is nearest the sensor. */
    method FindClosestTrackedBody() returns (closestBody: int)
      requires Valid()
      ensures -1 <= closestBody < numOfBodies
      ensures closestBody == ClosestBody(Distances(), MaxDistanceSquared)
    {
      ghost var ds := Distances();
      closestBody := -1;
      var minDistanceFromKinect := MaxDistanceSquared;
      var i := 0;
      while i < numOfBodies
        invariant 0 <= i <= numOfBodies
        invariant closestBody == ClosestBody(ds[..i], MaxDistanceSquared)
        invariant minDistanceFromKinect == if closestBody == -1 then MaxDistanceSquared else ds[closestBody]
      {
        var pelvisDistance := MagnitudeSquared(bodies[i].jointPositions[Pelvis]);
        assert ds[..i + 1][..i] == ds[..i];
        if pelvisDistance < minDistanceFromKinect {
          closestBody := i;
          minDistanceFromKinect := pelvisDistance;
        }
        i := i + 1;
      }
      assert ds[..i] == ds;
    }

    /** Places the hand targets at the selected body's hands, Y negated. The scan's -1
        ("no body") is skipped here; as written the source indexes the pool with it. */
    method UpdateTracker()
      requires Valid()
      modifies this`rightHandPosition, this`leftHandPosition
      ensures var c := ClosestBody(Distances(), MaxDistanceSquared);
        if c >= 0 then
          rightHandPosition == SensorToScene(bodies[c].jointPositions[HandRight]) &&
          leftHandPosition == SensorToScene(bodies[c].jointPositions[HandLeft])
        else
          rightHandPosition == old(rightHandPosition) && leftHandPosition == old(leftHandPosition)
    {
      var closestBody := FindClosestTrackedBody();
      if closestBody < 0 {
        return;
      }
      var skeleton := bodies[closestBody];
      rightHandPosition := SensorToScene(skeleton.jointPositions[HandRight]);
      leftHandPosition := SensorToScene(skeleton.jointPositions[HandLeft]);
    }

    /** Per-frame update: moves the hand targets only while tracking runs with bodies. */
    method Update()
      requires Valid()
      modifies this`rightHandPosition, this`leftHandPosition
      ensures var c := ClosestBody(Distances(), MaxDistanceSquared);
        if ShouldTrack(isSkeletalTrackingRunning, numOfBodies) && c >= 0 then
          rightHandPosition == SensorToScene(bodies[c].jointPositions[HandRight]) &&
          leftHandPosition == SensorToScene(bodies[c].jointPositions[HandLeft])
        else
          rightHandPosition == old(rightHandPosition) && leftHandPosition == old(leftHandPosition)
    {
      if isSkeletalTrackingRunning && numOfBodies > 0 {
        UpdateTracker();
      }
    }

    /** One capture-loop iteration's publication, as written: a popped result sets the
        running flag and the count, then copies body i into slot i for every i below the
        count. Nothing caps the count at the pool size, so a result with more than 20
        bodies faults at slot 20 (fault), after the count has been published. */
    method PublishFrame(frame: Option<seq<Body>>) returns (fault: bool)
      requires Valid()
      requires FrameWellFormed(frame)
      modifies this`isSkeletalTrackingRunning, this`numOfBodies, bodies
      ensures PoolValid()
      ensures frame.None? ==>
        !fault && isSkeletalTrackingRunning == old(isSkeletalTrackingRunning) &&
        numOfBodies == old(numOfBodies) && bodies[..] == old(bodies[..])
      ensures frame.Some? ==>
        isSkeletalTrackingRunning && numOfBodies == |frame.value| &&
        fault == (|frame.value| > PoolCapacity)
      ensures frame.Some? ==> forall i :: 0 <= i < bodies.Length ==>
        bodies[i] == if i < |frame.value| then frame.value[i] else old(bodies[i])
      ensures !fault ==> Valid()
    {
      fault := false;
      if frame.None? {
        // a timed-out pop: the source only logs a warning
        return;
      }
      isSkeletalTrackingRunning := true;
      numOfBodies := |frame.value|;
      var i := 0;
      while i < numOfBodies
        invariant 0 <= i <= numOfBodies && i <= bodies.Length
        invariant isSkeletalTrackingRunning && numOfBodies == |frame.value|
        invariant PoolValid()
        invariant forall j :: 0 <= j < bodies.Length ==>
          bodies[j] == if j < i then frame.value[j] else old(bodies[j])
      {
        if i >= bodies.Length {
          // bodies[20]: IndexOutOfRangeException ends the worker
          fault := true;
          return;
        }
        bodies[i] := frame.value[i];
        i := i + 1;
      }
    }

    /** The publication step with the count capped at the pool size, so that bodies
        beyond capacity are dropped and the published count always fits the pool. */
    method PublishFrameCapped(frame: Option<seq<Body>>)
      requires Valid()
      requires FrameWellFormed(frame)
      modifies this`isSkeletalTrackingRunning, this`numOfBodies, bodies
      ensures Valid()
      ensures frame.None? ==>
        isSkeletalTrackingRunning == old(isSkeletalTrackingRunning) &&
        numOfBodies == old(numOfBodies) && bodies[..] == old(bodies[..])
      ensures frame.Some? ==> isSkeletalTrackingRunning && numOfBodies == Min(|frame.value|, PoolCapacity)
      ensures frame.Some? ==> forall i :: 0 <= i < bodies.Length ==>
        bodies[i] == if i < numOfBodies then frame.value[i] else old(bodies[i])
    {
      if frame.None? {
        return;
      }
      isSkeletalTrackingRunning := true;
      numOfBodies := Min(|frame.value|, bodies.Length);
      var i := 0;
      while i < numOfBodies
        invariant 0 <= i <= numOfBodies
        invariant isSkeletalTrackingRunning && numOfBodies == Min(|frame.value|, PoolCapacity)
        invariant PoolValid()
        invariant forall j :: 0 <= j < bodies.Length ==>
          bodies[j] == if j < i then frame.value[j] else old(bodies[j])
      {
        bodies[i] := frame.value[i];
        i := i + 1;
      }
    }

    /** The capture loop: pops holds the result of each iteration before cancellation is
        observed at the loop head. Afterwards the count and the first count slots are
        those of the last non-null result; with none, nothing changed. */
    method RunCaptureLoop(pops: seq<Option<seq<Body>>>)
      requires Valid()
      requires forall k :: 0 <= k < |pops| ==> FrameWellFormed(pops[k])
      modifies this`isSkeletalTrackingRunning, this`numOfBodies, bodies
      ensures Valid()
      ensures isSkeletalTrackingRunning == (old(isSkeletalTrackingRunning) || LastFrame(pops).Some?)
      ensures LastFrame(pops).None? ==> numOfBodies == old(numOfBodies) && bodies[..] == old(bodies[..])
      ensures LastFrame(pops).Some? ==>
        numOfBodies == Min(|LastFrame(pops).value|, PoolCapacity) &&
        bodies[..numOfBodies] == LastFrame(pops).value[..numOfBodies]
    {
      var k := 0;
      while k < |pops|
        invariant 0 <= k <= |pops|
        invariant Valid()
        invariant isSkeletalTrackingRunning == (old(isSkeletalTrackingRunning) || LastFrame(pops[..k]).Some?)
        invariant LastFrame(pops[..k]).None? ==> numOfBodies == old(numOfBodies) && bodies[..] == old(bodies[..])
        invariant LastFrame(pops[..k]).Some? ==>
          numOfBodies == Min(|LastFrame(pops[..k]).value|, PoolCapacity) &&
          bodies[..numOfBodies] == LastFrame(pops[..k]).value[..numOfBodies]
      {
        assert pops[..k + 1][..k] == pops[..k];
        PublishFrameCapped(pops[k]);
        k := k + 1;
      }
      assert pops[..k] == pops;
    }
  }

  /** A result with 21 bodies makes the as-written publication fault, leaving a
      published count the pool cannot hold. */
  method OverfullFrameFaults() returns (fault: bool, published: nat)
    ensures fault && published == PoolCapacity + 1
  {
    var tester := new AzureKinectTester();
    fault := tester.PublishFrame(Some(seq(PoolCapacity + 1, _ => EmptyBody())));
    published := tester.numOfBodies;
  }
}
