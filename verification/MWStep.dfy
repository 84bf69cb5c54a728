/** Trees of processing steps. */
module MWSteps {
  type byte = x: int | 0 <= x < 256

  /** A leaf step: its class name and what it writes about itself. */
  datatype Leaf = Leaf(className: seq<byte>, data: seq<byte>)

  datatype MWStep = LocalStep(leaf: Leaf) | GlobalStep(leaf: Leaf) | MultiStep(steps: seq<MWStep>)
}
