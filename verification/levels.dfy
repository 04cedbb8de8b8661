/** The five level names of the experience scale, in increasing order. */
module Levels {

  const Beginner: string := "Beginner"
  const Intermediate: string := "Intermediate"
  const Advanced: string := "Advanced"
  const Proficient: string := "Proficient"
  const Master: string := "Master"

  const Names: seq<string> := [Beginner, Intermediate, Advanced, Proficient, Master]

  /** Minimum experience of each level, aligned with `Names`. */
  const Floors: seq<int> := [0, 100, 500, 1500, 3000]

  /** Position of a level name in `Names`. */
  function Rank(name: string): (r: nat)
    requires name in Names
    ensures r < |Names| && Names[r] == name
  {
    if name == Beginner then 0
    else if name == Intermediate then 1
    else if name == Advanced then 2
    else if name == Proficient then 3
    else 4
  }
}
