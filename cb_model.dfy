// The constants that fix the document layout and the key formats.

module CBModel {

  // Keys
  const VERTEX_PREFIX: string := "v_"
  const EDGE_PREFIX: string := "e_"
  const VERTEX_KEY: string := VERTEX_PREFIX + "{1}"
  const EDGE_DELIM: string := "->"
  const EDGE_LABEL_DELIM: string := "|"
  const EDGE_ID: string := "{1}" + EDGE_DELIM + EDGE_LABEL_DELIM + "{2}" + EDGE_LABEL_DELIM + EDGE_DELIM + "{3}"
  const EDGE_KEY: string := EDGE_PREFIX + EDGE_ID
  /** The key of a vertex's binary adjacency-list document ("al_" followed by the vertex id). */
  const AL_KEY: string := "al_{1}"

  // Properties
  const PROP_TYPE: string := "type"
  const PROP_PROPS: string := "props"
  const PROP_LABEL: string := "label"
  const PROP_VALUE: string := "value"
  const PROP_EDGES: string := "edges"
  const PROP_EDGES_OUT: string := "out"
  const PROP_EDGES_IN: string := "in"
  const PROP_FROM: string := "from"
  const PROP_TO: string := "to"

  // Counters
  const VERTEX_COUNTER_KEY: string := "vertex_counter"

  // Values
  const VAL_TYPE_EDGE: string := "edge"
  const VAL_TYPE_VERTEX: string := "vertex"
}
