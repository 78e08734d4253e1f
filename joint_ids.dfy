/** The Azure Kinect Body Tracking SDK's JointId values used by both components. */
module JointIds {
  const Pelvis: nat := 0
  const HandLeft: nat := 8
  const HandRight: nat := 15
  /** JointId.Count: the number of joints the tracker reports per body. */
  const JointCount: nat := 32
}
