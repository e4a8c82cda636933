/** The number of hash slots of a cluster. */
module Slots {
  const CLUSTER_SLOTS: nat := 16384
}
