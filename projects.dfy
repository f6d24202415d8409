/** The projects page of the portfolio front end: loads the project list,
    hides one project by title and draws each project's progress bar. */
module Projects {
  import opened Js
  import Seqs

  /** How the request for `/projects` settled: rejected, or resolved with the
      parsed response. */
  datatype Fetched = Rejected | Resolved(res: Value)

  const HiddenTitle := "Ant's agent"

  /** A project is shown unless its title is exactly the hidden one. */
  predicate Shown(project: Value) {
    Field(project, "title") != Str(HiddenTitle)
  }

  function IsNullish(v: Value): bool {
    v.Null? || v.Undefined?
  }

  /** `filterProjects`: the projects not titled "Ant's agent", in order. */
  function FilterProjects(list: seq<Value>): (r: seq<Value>)
    ensures forall i :: 0 <= i < |r| ==> Shown(r[i])
  {
    Seqs.FilterMembers(list, Shown);
    Seqs.Filter(list, Shown)
  }

  /** `filterProjects` removes exactly the hidden project: what it keeps
      comes from the list, everything else in the list is kept, the order is
      the list's, and filtering again changes nothing. */
  lemma {:induction false} FilterProjectsExact(list: seq<Value>, a: seq<Value>, b: seq<Value>)
    ensures forall i :: 0 <= i < |FilterProjects(list)| ==> FilterProjects(list)[i] in list
    ensures forall j :: 0 <= j < |list| && Shown(list[j]) ==> list[j] in FilterProjects(list)
    ensures FilterProjects(a + b) == FilterProjects(a) + FilterProjects(b)
    ensures FilterProjects(FilterProjects(list)) == FilterProjects(list)
  {
    Seqs.FilterMembers(list, Shown);
    Seqs.FilterAppend(a, b, Shown);
    Seqs.FilterAll(FilterProjects(list), Shown);
  }

  /** The list shown once the request settles. An array under `res.data` is
      preferred, then `res` itself when it is an array; anything else, a
      rejected request, a null response or a null project (reading its title
      throws) gives the empty list. */
  function ProjectsAfterLoad(fetched: Fetched): (r: seq<Value>)
    ensures fetched.Rejected? ==> r == []
    ensures fetched.Resolved? && Field(fetched.res, "data").Arr? && !IsNullish(fetched.res) ==>
              var list := Field(fetched.res, "data").elems;
              r == (if exists i :: 0 <= i < |list| && IsNullish(list[i]) then [] else FilterProjects(list))
    ensures fetched.Resolved? && !Field(fetched.res, "data").Arr? && fetched.res.Arr? ==>
              var list := fetched.res.elems;
              r == (if exists i :: 0 <= i < |list| && IsNullish(list[i]) then [] else FilterProjects(list))
    ensures fetched.Resolved? && !Field(fetched.res, "data").Arr? && !fetched.res.Arr? ==> r == []
  {
    match fetched
    case Rejected => []
    case Resolved(res) =>
      if IsNullish(res) then []
      else
        var list := if Field(res, "data").Arr? then Field(res, "data").elems
                    else if res.Arr? then res.elems
                    else [];
        if exists i :: 0 <= i < |list| && IsNullish(list[i]) then [] else FilterProjects(list)
  }

  /** The width of a progress bar, in percent: the progress when it is a
      number, 0 otherwise (a numeric string included). */
  function ProgressWidth(progress: Value): (w: Num)
    ensures progress.Number? ==> w == progress.n
    ensures !progress.Number? ==> w == Finite(0)
  {
    if progress.Number? then progress.n else Finite(0)
  }
}
