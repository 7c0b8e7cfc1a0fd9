/**
 * The two read-only transformation graphs (transformations/graphs.go): a
 * map from a source system to a map from a target system to the edge's data.
 */
module Graphs {
  import opened Wrappers
  import opened Config

  /** Adjacency map over system ids with edge data of type T. */
  type Graph<T> = map<string, map<string, T>>

  /** Looking up `data[from][to]` in Go: a missing `from` gives an empty
      inner map, so both misses are a plain not-found. */
  function Lookup<T>(data: Graph<T>, from: string, to: string): (r: Option<T>)
    ensures r.Some? <==> from in data && to in data[from]
    ensures r.Some? ==> r.value == data[from][to]
    ensures from !in data ==> r.None?
  {
    if from in data && to in data[from] then Some(data[from][to]) else None
  }

  /** `CSTransformationGraph`: edges carry the ordered zone list. */
  datatype CSTransformationGraph = CSTransformationGraph(data: Graph<seq<CSTransformation>>) {
    /** `Get(from, to)`: the zone list of the edge, unchanged and in order. */
    function Get(from: string, to: string): (r: Option<seq<CSTransformation>>)
      ensures r.Some? <==> from in data && to in data[from]
      ensures r.Some? ==> r.value == data[from][to] && |r.value| == |data[from][to]|
    {
      Lookup(data, from, to)
    }
  }

  /** `HSTransformationGraph`: edges carry {Type, Name, Direction}; the
      method tables travel with the graph. */
  datatype HSTransformationGraph = HSTransformationGraph(data: Graph<HSTransformation>, methods: TransformationMethods) {
    /** `Get(from, to)`: the stored method reference of the edge. */
    function Get(from: string, to: string): (r: Option<HSTransformation>)
      ensures r.Some? <==> from in data && to in data[from]
      ensures r.Some? ==> r.value == data[from][to]
    {
      Lookup(data, from, to)
    }
  }
}
