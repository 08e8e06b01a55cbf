/** The project picker: a case-insensitive search over project names and
    the number of tasks shown beside each project. */
module ProjectPicker {
  import opened Sequences

  datatype Project = Project(id: Option<string>, name: string, description: string)

  datatype Task = Task(id: Option<string>, title: string, projectId: string)

  /** `toLowerCase` on one character, for the ASCII letters. */
  function LowerChar(c: char): (r: char)
    ensures !('A' <= r <= 'Z')
    ensures r != c <==> 'A' <= c <= 'Z'
    ensures 'A' <= c <= 'Z' ==> r as int - 'a' as int == c as int - 'A' as int
  {
    if 'A' <= c <= 'Z' then (c as int + 32) as char else c
  }

  /** `s.toLowerCase()`. */
  function Lower(s: string): (r: string)
    ensures |r| == |s|
    ensures forall i :: 0 <= i < |s| ==> r[i] == LowerChar(s[i])
  {
    if s == [] then [] else [LowerChar(s[0])] + Lower(s[1..])
  }

  /** A lowered string has no upper-case letter left. */
  lemma LowerHasNoUpper(s: string)
    ensures forall i :: 0 <= i < |s| ==> !('A' <= Lower(s)[i] <= 'Z')
  {
  }

  lemma LowerIdempotent(s: string)
    ensures Lower(Lower(s)) == Lower(s)
  {
    var r := Lower(s);
    forall k | 0 <= k < |s|
      ensures Lower(r)[k] == r[k]
    {
      assert r[k] == LowerChar(s[k]);
    }
  }

  /** `t` occurs in `s` starting at position `i`. */
  predicate OccursAt(t: string, s: string, i: nat) {
    i + |t| <= |s| && s[i..i + |t|] == t
  }

  /** `t` occurs in `s` as a contiguous piece. */
  ghost predicate IsSubstring(t: string, s: string) {
    exists i: nat :: OccursAt(t, s, i)
  }

  /** `s.includes(t)`. */
  function Includes(s: string, t: string): (r: bool)
    ensures r <==> IsSubstring(t, s)
  {
    if OccursAt(t, s, 0) then true
    else if s == [] then false
    else
      var r := Includes(s[1..], t);
      ShiftOccurrence(t, s);
      r
  }

  /** Occurrences in the tail of `s` are the later occurrences in `s`. */
  lemma ShiftOccurrence(t: string, s: string)
    requires s != []
    ensures forall i: nat :: OccursAt(t, s[1..], i) <==> OccursAt(t, s, i + 1)
    ensures IsSubstring(t, s) <==> OccursAt(t, s, 0) || IsSubstring(t, s[1..])
  {
    forall i: nat
      ensures OccursAt(t, s[1..], i) <==> OccursAt(t, s, i + 1)
    {
      if i + 1 + |t| <= |s| {
        var a, b := s[1..][i..i + |t|], s[i + 1..i + 1 + |t|];
        forall k | 0 <= k < |t|
          ensures a[k] == b[k]
        {
          assert a[k] == s[1..][i + k] == s[i + 1 + k];
        }
        assert a == b;
      }
    }
    if IsSubstring(t, s) && !OccursAt(t, s, 0) {
      var i: nat :| OccursAt(t, s, i);
      assert OccursAt(t, s[1..], i - 1);
    }
  }

  lemma SubstringTransitive(a: string, b: string, c: string)
    requires IsSubstring(a, b) && IsSubstring(b, c)
    ensures IsSubstring(a, c)
  {
    var i: nat :| OccursAt(a, b, i);
    var j: nat :| OccursAt(b, c, j);
    forall k | 0 <= k < |a|
      ensures c[j + i..j + i + |a|][k] == a[k]
    {
      assert a[k] == b[i + k] == c[j..j + |b|][i + k];
    }
    assert OccursAt(a, c, j + i);
  }

  lemma LowerSubstring(a: string, b: string)
    requires IsSubstring(a, b)
    ensures IsSubstring(Lower(a), Lower(b))
  {
    var i: nat :| OccursAt(a, b, i);
    var la, lb := Lower(a), Lower(b);
    forall k | 0 <= k < |a|
      ensures lb[i..i + |a|][k] == la[k]
    {
      assert a[k] == b[i..i + |a|][k] == b[i + k];
    }
    assert OccursAt(la, lb, i);
  }

  /** A project is shown for a search term when its lowered name contains
      the lowered term. */
  predicate Matches(p: Project, term: string)
    ensures Matches(p, term) <==> IsSubstring(Lower(term), Lower(p.name))
  {
    Includes(Lower(p.name), Lower(term))
  }

  /** `projects.filter(project => project.name.toLowerCase().includes(searchTerm.toLowerCase()))`. */
  function FilterProjects(projects: seq<Project>, term: string): (r: seq<Project>)
    ensures |r| <= |projects|
    ensures forall p :: p in r <==> p in projects && IsSubstring(Lower(term), Lower(p.name))
    ensures |r| == |set i | 0 <= i < |projects| && Matches(projects[i], term)|
  {
    var keep := (p: Project) => Matches(p, term);
    FilterLength(projects, keep);
    assert Positions(projects, keep) == set i | 0 <= i < |projects| && Matches(projects[i], term);
    Filter(projects, keep)
  }

  /** The shown projects appear in the order of the fetched list. */
  lemma FilterKeepsOrder(projects: seq<Project>, term: string)
    ensures IsSubsequence(FilterProjects(projects, term), projects)
  {
    FilterIsSubsequence(projects, (p: Project) => Matches(p, term));
  }

  /** The empty search term shows every project, which is the list the
      picker shows right after loading. */
  lemma EmptyTermKeepsAll(projects: seq<Project>)
    ensures FilterProjects(projects, "") == projects
  {
    forall i | 0 <= i < |projects|
      ensures Matches(projects[i], "")
    {
      assert OccursAt(Lower(""), Lower(projects[i].name), 0);
    }
    FilterKeepsAll(projects, (p: Project) => Matches(p, ""));
  }

  /** Terms that differ only in letter case show the same projects. */
  lemma CaseInsensitive(projects: seq<Project>, t1: string, t2: string)
    requires Lower(t1) == Lower(t2)
    ensures FilterProjects(projects, t1) == FilterProjects(projects, t2)
  {
    FilterCongruent(projects, (p: Project) => Matches(p, t1), (p: Project) => Matches(p, t2));
  }

  /** Typing the term in lower case changes nothing. */
  lemma LoweredTermSameResult(projects: seq<Project>, term: string)
    ensures FilterProjects(projects, Lower(term)) == FilterProjects(projects, term)
  {
    LowerIdempotent(term);
    CaseInsensitive(projects, Lower(term), term);
  }

  /** Extending the search term can only narrow the shown list. */
  lemma NarrowingTerm(projects: seq<Project>, t1: string, t2: string)
    requires IsSubstring(t1, t2)
    ensures IsSubsequence(FilterProjects(projects, t2), FilterProjects(projects, t1))
  {
    LowerSubstring(t1, t2);
    forall i | 0 <= i < |projects| && Matches(projects[i], t2)
      ensures Matches(projects[i], t1)
    {
      SubstringTransitive(Lower(t1), Lower(t2), Lower(projects[i].name));
    }
    FilterWeaker(projects, (p: Project) => Matches(p, t2), (p: Project) => Matches(p, t1));
  }

  /** `tasks.filter(task => task.projectId === projectId).length`. */
  function TaskCount(tasks: seq<Task>, projectId: string): (n: nat)
    ensures n <= |tasks|
    ensures n == 0 <==> forall i :: 0 <= i < |tasks| ==> tasks[i].projectId != projectId
  {
    var r := Filter(tasks, (t: Task) => t.projectId == projectId);
    assert r != [] ==> r[0] in tasks;
    |r|
  }

  /** The count is the number of positions holding a task of the project. */
  lemma TaskCountCountsMatches(tasks: seq<Task>, projectId: string)
    ensures TaskCount(tasks, projectId) == |set i | 0 <= i < |tasks| && tasks[i].projectId == projectId|
  {
    var p := (t: Task) => t.projectId == projectId;
    FilterLength(tasks, p);
    assert Positions(tasks, p) == set i | 0 <= i < |tasks| && tasks[i].projectId == projectId;
  }

  /** The count shown beside a project: a project without an id is counted
      against the empty project id. */
  function ProjectTaskCount(tasks: seq<Task>, project: Project): (n: nat)
    ensures project.id.Some? ==> n == TaskCount(tasks, project.id.value)
    ensures project.id.None? ==> n == TaskCount(tasks, "")
  {
    TaskCount(tasks, project.id.GetOr(""))
  }

  /** A project without an id is shown with the tasks whose project id is
      empty, not with zero. */
  lemma MissingIdCountsEmptyProjectId()
    ensures ProjectTaskCount([Task(None, "Draft", ""), Task(None, "Plan", "p1")],
                             Project(None, "Inbox", "")) == 1
  {
  }
}
