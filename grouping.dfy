/**
 The last step of `find_in_files`: the (file, match) results drained from the
 result queue are folded into a map from file name to that file's matches.
 */
module Grouping {
  import opened LineSearch

  /** One item on the result queue: the file name and one of its matches. */
  type ResultItem = (string, Match)

  /** The matches of `file` among `results`, in arrival order. */
  function MatchesFor(results: seq<ResultItem>, file: string): seq<Match>
  {
    if results == [] then []
    else
      var last := results[|results| - 1];
      MatchesFor(results[..|results| - 1], file) + (if last.0 == file then [last.1] else [])
  }

  /** The files that occur in at least one result. */
  function FilesIn(results: seq<ResultItem>): set<string>
  {
    set i | 0 <= i < |results| :: results[i].0
  }

  /** A file has matches exactly when it occurs among the results. */
  lemma {:induction false} MatchesForEmpty(results: seq<ResultItem>, file: string)
    ensures MatchesFor(results, file) == [] <==> file !in FilesIn(results)
  {
    if results != [] {
      var init := results[..|results| - 1];
      MatchesForEmpty(init, file);
      assert FilesIn(results) == FilesIn(init) + {results[|results| - 1].0} by {
        forall f ensures f in FilesIn(results) <==> f in FilesIn(init) || f == results[|results| - 1].0 {
          if f in FilesIn(results) {
            var i :| 0 <= i < |results| && results[i].0 == f;
            if i < |results| - 1 {
              assert init[i].0 == f;
            }
          }
          if f in FilesIn(init) {
            var i :| 0 <= i < |init| && init[i].0 == f;
            assert results[i].0 == f;
          }
        }
      }
    }
  }

  /** The total number of matches held in a grouping. */
  ghost function TotalMatches(groups: map<string, seq<Match>>): nat
    decreases |groups|
  {
    if groups == map[] then 0
    else
      var f :| f in groups;
      assert |groups - {f}| < |groups| by {
        assert (groups - {f}).Keys == groups.Keys - {f};
      }
      |groups[f]| + TotalMatches(groups - {f})
  }

  /** The total may be computed by taking out any one file first. */
  lemma {:induction false} TotalMatchesRemove(groups: map<string, seq<Match>>, file: string)
    requires file in groups
    ensures TotalMatches(groups) == |groups[file]| + TotalMatches(groups - {file})
    decreases |groups|
  {
    var f :| f in groups && TotalMatches(groups) == |groups[f]| + TotalMatches(groups - {f});
    if f != file {
      assert (groups - {f}).Keys == groups.Keys - {f};
      assert (groups - {file}).Keys == groups.Keys - {file};
      TotalMatchesRemove(groups - {f}, file);
      TotalMatchesRemove(groups - {file}, f);
      assert groups - {f} - {file} == groups - {file} - {f};
    }
  }

  /** Replacing the list of one file changes the total by the difference in
      that list's length. */
  lemma TotalMatchesUpdate(groups: map<string, seq<Match>>, file: string, list: seq<Match>)
    ensures TotalMatches(groups[file := list]) + (if file in groups then |groups[file]| else 0)
         == TotalMatches(groups) + |list|
  {
    var updated := groups[file := list];
    assert updated - {file} == groups - {file};
    TotalMatchesRemove(updated, file);
    if file in groups {
      TotalMatchesRemove(groups, file);
    } else {
      assert groups - {file} == groups;
    }
  }

  /** `entry(file).or_default().push(m)`: append `m` to the list of `file`,
      creating it when absent. */
  function Push(groups: map<string, seq<Match>>, file: string, m: Match): (pushed: map<string, seq<Match>>)
    ensures pushed.Keys == groups.Keys + {file}
    ensures pushed[file] == (if file in groups then groups[file] else []) + [m]
    ensures forall f :: f in groups && f != file ==> pushed[f] == groups[f]
    ensures TotalMatches(pushed) == TotalMatches(groups) + 1
  {
    var list := if file in groups then groups[file] else [];
    TotalMatchesUpdate(groups, file, list + [m]);
    groups[file := list + [m]]
  }

  /** The drain loop of `find_in_files`: every result goes, in arrival order,
      to the list of its file. */
  method GroupByFile(results: seq<ResultItem>) returns (groups: map<string, seq<Match>>)
    ensures groups.Keys == FilesIn(results)
    ensures forall f :: f in groups ==> groups[f] == MatchesFor(results, f) && groups[f] != []
    ensures TotalMatches(groups) == |results|
  {
    groups := map[];
    var i := 0;
    while i < |results|
      invariant 0 <= i <= |results|
      invariant groups.Keys == FilesIn(results[..i])
      invariant forall f :: f in groups ==> groups[f] == MatchesFor(results[..i], f) && groups[f] != []
      invariant TotalMatches(groups) == i
    {
      var (file, m) := results[i];
      assert results[..i + 1][..i] == results[..i];
      assert FilesIn(results[..i + 1]) == FilesIn(results[..i]) + {file} by {
        MatchesForEmpty(results[..i + 1], file);
        forall f ensures f in FilesIn(results[..i + 1]) <==> f in FilesIn(results[..i]) || f == file {
          MatchesForEmpty(results[..i + 1], f);
          MatchesForEmpty(results[..i], f);
        }
      }
      if file !in groups {
        MatchesForEmpty(results[..i], file);
      }
      groups := Push(groups, file, m);
      i := i + 1;
    }
    assert results[..i] == results;
  }
}
