/** The solved geometry of a survey: where each node is and how it was placed. */
module SurveyFit {
  const MAX_NODES: nat := 8

  datatype Vec = Vec(x: real, y: real, z: real)

  const ORIGIN: Vec := Vec(0.0, 0.0, 0.0)

  datatype NodeState = Unplaced | Placed | Ambiguous

  datatype NodeOut = NodeOut(at: Vec, state: NodeState)

  datatype Dim = Dim3 | Dim2

  /** The operator's designations as node indices; up is not read in 2D. */
  datatype Gauge = Gauge(origin: nat, xaxis: nat, plane: nat, up: nat, dim: Dim)

  datatype Fit = Fit(nodes: seq<NodeOut>, nPlaced: nat, nAmbiguous: nat, dim: Dim, rms: real, worst: real)
}
