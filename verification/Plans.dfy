/** Plan entries as the serializer sees them. */
module Plans {
  /** One entry of a `steps` array. `Step` has a `script` key, `Loop` a
      `loop_type` key, and `Other` neither: such an entry gets no node but still
      takes part in the sequential wiring. Missing precondition lists and missing
      loop bodies read as empty. */
  datatype Entry =
    | Step(id: string, preconditions: seq<string>)
    | Loop(id: string, body: seq<Entry>)
    | Other(id: string)

  function Ids(steps: seq<Entry>): set<string> {
    set e | e in steps :: e.id
  }

  ghost predicate UniqueIds(steps: seq<Entry>) {
    forall i, j :: 0 <= i < j < |steps| ==> steps[i].id != steps[j].id
  }
}
