/**
 * components/admin/featured-projects-manager.tsx: the admin panel's list of
 * featured project names, edited by switches with a cap of six, and the
 * search box over all projects.
 */
module FeaturedManager {
  import opened Wrappers
  import opened Text
  import opened Types
  import Seqs

  const MaxFeatured: nat := 6
  const LimitMessage: string := "Maksimal 6 project yang bisa dijadikan featured"
  const SaveFailedMessage: string := "Gagal memperbarui featured projects"

  datatype MessageKind = SuccessMessage | ErrorMessage
  datatype Message = Message(kind: MessageKind, text: string)

  function SavedMessage(count: nat): string {
    "Berhasil memperbarui " + NatToString(count) + " featured projects. Refresh halaman untuk melihat perubahan."
  }

  // ------------------------------------------------------------ initial list

  /** The names of the projects marked featured, in input order. */
  function InitialFeatured(projects: seq<Project>): (names: seq<string>)
    ensures |names| <= |projects|
    ensures forall p :: p in projects && p.featured ==> p.name in names
    ensures forall n :: n in names ==> exists p :: p in projects && p.featured && p.name == n
  {
    if projects == [] then []
    else
      var rest := InitialFeatured(projects[1..]);
      assert forall p :: p in projects[1..] ==> p in projects;
      if projects[0].featured then [projects[0].name] + rest else rest
  }

  /** The list of a concatenation is the concatenation of the lists: input order is kept. */
  lemma {:induction false} InitialFeaturedAppend(a: seq<Project>, b: seq<Project>)
    ensures InitialFeatured(a + b) == InitialFeatured(a) + InitialFeatured(b)
  {
    if a == [] {
      assert a + b == b;
    } else {
      assert (a + b)[1..] == a[1..] + b;
      InitialFeaturedAppend(a[1..], b);
    }
  }

  // ----------------------------------------------------------------- search

  /** Name or description contains the term, both lower-cased. */
  predicate Matches(p: Project, term: string) {
    Contains(LowerStr(p.name), LowerStr(term)) || Contains(LowerStr(p.description), LowerStr(term))
  }

  function MatchesTerm(term: string): Project -> bool {
    (p: Project) => Matches(p, term)
  }

  /** `filteredProjects`: the matching projects, in input order. */
  function FilterProjects(projects: seq<Project>, term: string): (r: seq<Project>)
    ensures forall i :: 0 <= i < |r| ==> r[i] in projects && Matches(r[i], term)
    ensures forall p :: p in projects && Matches(p, term) ==> p in r
  {
    Seqs.Filter(projects, MatchesTerm(term))
  }

  /** An empty search term keeps every project. */
  lemma EmptyTermKeepsAll(projects: seq<Project>)
    ensures FilterProjects(projects, "") == projects
  {
    forall p | p in projects ensures MatchesTerm("")(p) {
      assert LowerStr("") == "";
      assert StartsWith(LowerStr(p.name), "");
    }
    Seqs.FilterAll(projects, MatchesTerm(""));
  }

  // ----------------------------------------------------------------- toggle

  datatype Toggled = Toggled(featured: seq<string>, message: Option<Message>)

  /** `handleToggleFeatured(name, on)`: the list and message it leaves. */
  function Toggle(featured: seq<string>, name: string, on: bool): (t: Toggled)
    ensures on && |featured| >= MaxFeatured ==>
      t == Toggled(featured, Some(Message(ErrorMessage, LimitMessage)))
    ensures !(on && |featured| >= MaxFeatured) ==> t.message == None
    ensures on && |featured| < MaxFeatured ==> t.featured == featured + [name]
    ensures !on ==> t.featured == Seqs.RemoveAll(featured, name)
  {
    if on && |featured| >= MaxFeatured then Toggled(featured, Some(Message(ErrorMessage, LimitMessage)))
    else if on then Toggled(featured + [name], None)
    else Toggled(Seqs.RemoveAll(featured, name), None)
  }

  /** One toggle never takes the list past six, nor past its own length when it was already longer. */
  lemma ToggleBound(featured: seq<string>, name: string, on: bool)
    ensures |Toggle(featured, name, on).featured| <= if |featured| <= MaxFeatured then MaxFeatured else |featured|
  {
  }

  /** Runs a sequence of switch events (name, on) from `featured`. */
  function Replay(featured: seq<string>, events: seq<(string, bool)>): seq<string>
    decreases |events|
  {
    if events == [] then featured
    else Replay(Toggle(featured, events[0].0, events[0].1).featured, events[1..])
  }

  /** Starting from at most six names, no sequence of toggles yields more than six. */
  lemma {:induction false} ReplayStaysWithinCap(featured: seq<string>, events: seq<(string, bool)>)
    requires |featured| <= MaxFeatured
    ensures |Replay(featured, events)| <= MaxFeatured
    decreases |events|
  {
    if events != [] {
      ToggleBound(featured, events[0].0, events[0].1);
      ReplayStaysWithinCap(Toggle(featured, events[0].0, events[0].1).featured, events[1..]);
    }
  }

  /** Turning a new name on and then off again restores the list. */
  lemma OnThenOffRestores(featured: seq<string>, name: string)
    requires name !in featured && |featured| < MaxFeatured
    ensures Toggle(Toggle(featured, name, true).featured, name, false).featured == featured
  {
    Seqs.RemoveAppended(featured, name);
  }

  /** A project's switch is disabled when it is not listed and six are listed already. */
  predicate SwitchDisabled(featured: seq<string>, name: string) {
    name !in featured && |featured| >= MaxFeatured
  }

  function SlotsAvailable(featured: seq<string>): int {
    MaxFeatured - |featured|
  }

  /** An unlisted project's switch is disabled exactly when no slot is left. */
  lemma DisabledIffNoSlots(featured: seq<string>, name: string)
    requires name !in featured
    ensures SwitchDisabled(featured, name) <==> SlotsAvailable(featured) <= 0
  {
  }

  /**
   * The switch turns a project on exactly when it is not listed. Flipped that
   * way, the list stays duplicate-free, and the limit message appears exactly
   * when the switch would have been disabled.
   */
  lemma SwitchKeepsNoDup(featured: seq<string>, name: string)
    requires Seqs.NoDup(featured)
    ensures var t := Toggle(featured, name, name !in featured);
      Seqs.NoDup(t.featured) && (t.message.Some? <==> SwitchDisabled(featured, name))
  {
    if name in featured {
      Seqs.RemoveAllNoDup(featured, name);
    }
  }

  // ------------------------------------------------------------------ state

  /** The component's state: the projects it was given, the featured names, the message and the search term. */
  class Manager {
    const allProjects: seq<Project>
    var featured: seq<string>
    var message: Option<Message>
    var searchTerm: string

    /** The mount effect: the featured names of the given projects. */
    constructor(allProjects: seq<Project>)
      ensures this.allProjects == allProjects
      ensures featured == InitialFeatured(allProjects) && message == None && searchTerm == ""
    {
      this.allProjects := allProjects;
      featured := InitialFeatured(allProjects);
      message := None;
      searchTerm := "";
    }

    method ToggleFeatured(name: string, on: bool)
      modifies this
      ensures Toggled(featured, message) == Toggle(old(featured), name, on)
      ensures searchTerm == old(searchTerm)
    {
      if on && |featured| >= MaxFeatured {
        message := Some(Message(ErrorMessage, LimitMessage));
        return;
      }
      featured := if on then featured + [name] else Seqs.RemoveAll(featured, name);
      message := None;
    }

    method Search(term: string)
      modifies this
      ensures searchTerm == term && featured == old(featured) && message == old(message)
    {
      searchTerm := term;
    }

    /** The projects shown for the current search term. */
    function Shown(): seq<Project>
      reads this
    {
      FilterProjects(allProjects, searchTerm)
    }

    /** `handleSave` with the outcome of the POST: the list is kept, the message reports. */
    method Save(accepted: bool)
      modifies this
      ensures featured == old(featured) && searchTerm == old(searchTerm)
      ensures accepted ==> message == Some(Message(SuccessMessage, SavedMessage(|featured|)))
      ensures !accepted ==> message == Some(Message(ErrorMessage, SaveFailedMessage))
    {
      if accepted {
        message := Some(Message(SuccessMessage, SavedMessage(|featured|)));
      } else {
        message := Some(Message(ErrorMessage, SaveFailedMessage));
      }
    }
  }
}
