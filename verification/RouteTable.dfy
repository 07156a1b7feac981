/** The interlocking table and the state of the track it controls. */
module RouteTable {

  datatype Position = Normal | Reverse

  datatype Point = Point(id: string, position: Position)

  datatype Route = Route(
    id: string, source: string, destination: string, orientation: string, length: string,
    path: seq<string>, sections: seq<string>, points: seq<Point>, signals: seq<string>, conflicts: seq<string>)

  datatype Aspect = Stop | Go | Shunt

  /** What the configuration fixes: the routes by id, the element types, and for each segment the
      signals controlling entry to its part of the network. */
  datatype Layout = Layout(
    routes: map<string, Route>, segments: set<string>, signals: set<string>, shunting: set<string>,
    entry: map<string, seq<string>>)

  /** What changes: the train of each granted route, the commanded aspects and positions, and which
      train stands on which segment. A signal without an entry shows Stop. */
  datatype Track = Track(
    train: map<string, string>, aspect: map<string, Aspect>, position: map<string, Position>,
    at: set<(string, string)>)
  {
    function AspectOf(signal: string): Aspect {
      if signal in aspect then aspect[signal] else Stop
    }

    predicate Permissive(signal: string) {
      AspectOf(signal) != Stop
    }

    predicate Occupied(segment: string) {
      exists p :: p in at && p.1 == segment
    }
  }
}
