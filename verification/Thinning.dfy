/** What it means to keep some members of a sequence, in order, and to drop the others. */
module Thinning {
  /** The kept members are those at these places: all that stay, no others, none moved. */
  ghost predicate Thinned<T>(at: seq<nat>, kept: seq<T>, all: seq<T>, stays: T -> bool) {
    && |at| == |kept|
    && (forall i, j :: 0 <= i < j < |at| ==> at[i] < at[j])
    && (forall i :: 0 <= i < |at| ==> at[i] < |all| && all[at[i]] == kept[i] && stays(kept[i]))
    && (forall k :: 0 <= k < |all| && stays(all[k]) ==> k in at)
  }

  /** One member more. */
  lemma ThinnedNext<T>(at: seq<nat>, kept: seq<T>, front: seq<T>, last: T, stays: T -> bool)
    requires Thinned(at, kept, front, stays)
    ensures if stays(last) then Thinned(at + [|front|], kept + [last], front + [last], stays)
            else Thinned(at, kept, front + [last], stays)
  {
    var all := front + [last];
    var next, longer := if stays(last) then at + [|front|] else at, if stays(last) then kept + [last] else kept;
    forall i | 0 <= i < |next| ensures next[i] < |all| && all[next[i]] == longer[i] && stays(longer[i]) {
      if i < |at| { assert next[i] == at[i] && longer[i] == kept[i] && all[at[i]] == front[at[i]]; }
    }
    forall k | 0 <= k < |all| && stays(all[k]) ensures k in next {
      if k < |front| { assert all[k] == front[k] && k in at; } else { assert next[|at|] == k; }
    }
  }
}
