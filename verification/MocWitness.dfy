/** Whatever reads step by step is a deterministic reader. */
module MocWitness {
  import opened Common
  import opened MocWorld

  datatype Move = Look(path: string) | Stop(end: End)

  /** The next move from what was given and from the answers so far. */
  type Program = (Given, seq<Option<string>>) -> Move

  function Answer(resolve: string -> string, files: Files, path: string): Option<string> {
    if resolve(path) in files then Some(files[resolve(path)]) else None
  }

  /** A program run until it stops; it fails if it is still looking after `left` looks. */
  function Performed(resolve: string -> string, program: Program, given: Given, files: Files,
                     seen: seq<Option<string>>, left: nat): Trace
    decreases left
  {
    match program(given, seen)
    case Stop(end) => Trace([], end)
    case Look(path) =>
      if left == 0 then Trace([], Fail(1, map[]))
      else
        var rest := Performed(resolve, program, given, files, seen + [Answer(resolve, files, path)], left - 1);
        Trace([path] + rest.looks, rest.end)
  }

  function Reading(w: World, program: Program, budget: Given -> nat): World {
    w.(moc := (given, files) => Performed(w.resolve, program, given, files, [], budget(given)))
  }

  lemma {:induction false} AnsweredAlike(w: World, program: Program, given: Given, a: Files, b: Files,
                                         seen: seq<Option<string>>, left: nat)
    requires SameAnswers(w, Performed(w.resolve, program, given, a, seen, left).looks, a, b)
    ensures Performed(w.resolve, program, given, b, seen, left) == Performed(w.resolve, program, given, a, seen, left)
    decreases left
  {
    if left > 0 {
      match program(given, seen)
      case Stop(_) =>
      case Look(path) =>
        var all := Performed(w.resolve, program, given, a, seen, left);
        var rest := Performed(w.resolve, program, given, a, seen + [Answer(w.resolve, a, path)], left - 1);
        assert all.looks[0] == path && SameAt(w, a, b, all.looks[0]);
        forall k | 0 <= k < |rest.looks| ensures SameAt(w, a, b, rest.looks[k]) {
          assert all.looks[k + 1] == rest.looks[k];
        }
        AnsweredAlike(w, program, given, a, b, seen + [Answer(w.resolve, a, path)], left - 1);
    }
  }

  /** Any program, with any bound on its looks for what it was given, is a deterministic reader. */
  lemma ProgramsAreAdaptive(w: World, program: Program, budget: Given -> nat)
    ensures Adaptive(Reading(w, program, budget))
  {
    var v := Reading(w, program, budget);
    forall given: Given, a: Files, b: Files | SameAnswers(v, v.moc(given, a).looks, a, b)
      ensures v.moc(given, b) == v.moc(given, a)
    {
      assert forall path :: SameAt(v, a, b, path) <==> SameAt(w, a, b, path);
      AnsweredAlike(w, program, given, a, b, [], budget(given));
    }
  }
}
