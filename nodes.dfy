/** The location records of model/node.py and its subclasses: frozen
    dataclasses without behaviour, here the variants of one datatype. */
module Nodes {

  /** A Neo4j element id, opaque and stable across the catalog, the distance
      table and the solved model. */
  type Id = string

  /** StampPoint adds the stamp number and its display name. Every variant
      carries the OSM node id that model/graph_data.py passes to the
      constructors (lines 65-70 and 87-110). */
  datatype Node =
    | StampPoint(id: Id, latitude: real, longitude: real, osmId: int, stampId: int, name: string)
    | BusStop(id: Id, latitude: real, longitude: real, osmId: int)
    | ParkingLot(id: Id, latitude: real, longitude: real, osmId: int)
    | Home(id: Id, latitude: real, longitude: real, osmId: int)
}
