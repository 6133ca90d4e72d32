/** The hand-off between the resolve step and the apply step. */
module Answers {
  import opened Text
  import opened Address

  const SCHEMA := 1

  datatype Outcome =
    | Ok         // authenticated answer with addresses
    | Empty      // authenticated proof that there are none
    | Transient  // no usable answer

  datatype NameResult = NameResult(
    name: string, outcome: Outcome, addrs: seq<Addr>, minTtl: Option<nat>, server: Option<Addr>)

  datatype Answers = Answers(schema: int, generated: real, results: seq<NameResult>)

  /** The first result for a name. */
  function FindIn(results: seq<NameResult>, name: string): (r: Option<NameResult>)
    ensures r.Some? ==> r.value in results && r.value.name == name
    ensures r.None? ==> forall x | x in results :: x.name != name
  {
    if results == [] then None
    else if results[0].name == name then Some(results[0])
    else FindIn(results[1..], name)
  }

  function Find(answers: Answers, name: string): Option<NameResult> {
    FindIn(answers.results, name)
  }
}
