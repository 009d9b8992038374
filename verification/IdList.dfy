/** The loop that collects batch IDs.

    What decides what an ID is, and which are equal, is arbitrary. */
module IdList {
  import opened Text

  datatype IdsResult = Ids(ids: seq<string>) | MissingIds | NotAnId(text: string) | TooMany(count: nat)

  const MAX_BATCH_IDS := 200

  /** The tokens that count: trimmed, without the blank ones. */
  function NonBlank(raw: seq<string>): (tokens: seq<string>)
    ensures "" !in tokens
  {
    if raw == [] then [] else
      var rest, t := NonBlank(raw[..|raw| - 1]), TrimSpace(raw[|raw| - 1]);
      if t == "" then rest else rest + [t]
  }

  ghost predicate KeyIn<K>(tokens: seq<string>, key: string -> K, x: K) {
    exists i :: 0 <= i < |tokens| && key(tokens[i]) == x
  }

  /** Every token whose key no earlier token has, in order. */
  ghost function Firsts<K>(tokens: seq<string>, key: string -> K): seq<string> {
    if tokens == [] then [] else
      var earlier, last := tokens[..|tokens| - 1], tokens[|tokens| - 1];
      if KeyIn(earlier, key, key(last)) then Firsts(earlier, key) else Firsts(earlier, key) + [last]
  }

  ghost predicate AllAccepted(tokens: seq<string>, accepts: string -> bool) {
    forall i :: 0 <= i < |tokens| ==> accepts(tokens[i])
  }

  ghost function FirstBad(tokens: seq<string>, accepts: string -> bool): (t: string)
    requires !AllAccepted(tokens, accepts)
    ensures t in tokens && !accepts(t)
  {
    if !accepts(tokens[0]) then tokens[0] else
      assert tokens == [tokens[0]] + tokens[1..];
      FirstBad(tokens[1..], accepts)
  }

  /** What the IDs of an input are: the first token of each key. */
  ghost function Collected<K>(raw: seq<string>, accepts: string -> bool, key: string -> K): IdsResult {
    var tokens := NonBlank(raw);
    if !AllAccepted(tokens, accepts) then NotAnId(FirstBad(tokens, accepts))
    else
      var ids := Firsts(tokens, key);
      if ids == [] then MissingIds else if |ids| > MAX_BATCH_IDS then TooMany(|ids|) else Ids(ids)
  }

  // --------------------------------------------------------------- first tokens

  lemma KeyInAppend<K>(tokens: seq<string>, last: string, key: string -> K, x: K)
    ensures KeyIn(tokens + [last], key, x) <==> KeyIn(tokens, key, x) || key(last) == x
  {
    var all := tokens + [last];
    if i :| 0 <= i < |tokens| && key(tokens[i]) == x { assert all[i] == tokens[i]; }
    if key(last) == x { assert all[|tokens|] == last; }
  }

  lemma FirstsAppend<K>(tokens: seq<string>, s: string, key: string -> K)
    ensures Firsts(tokens + [s], key) ==
            if KeyIn(tokens, key, key(s)) then Firsts(tokens, key) else Firsts(tokens, key) + [s]
  {
    assert (tokens + [s])[..|tokens|] == tokens;
  }

  /** A token's key is that of a token kept no later. */
  ghost predicate Covered<K>(tokens: seq<string>, key: string -> K, at: seq<nat>, k: nat)
    requires k < |tokens| && forall i :: 0 <= i < |at| ==> at[i] < |tokens|
  {
    exists i :: 0 <= i < |at| && at[i] <= k && key(tokens[at[i]]) == key(tokens[k])
  }

  /** The tokens at these places are in input order, pairwise of different keys, and every
      token's key is that of one of them no later: so each is the first of its key. */
  ghost predicate KeptAt<K>(tokens: seq<string>, key: string -> K, at: seq<nat>) {
    && (forall i :: 0 <= i < |at| ==> at[i] < |tokens|)
    && (forall i, j :: 0 <= i < j < |at| ==> at[i] < at[j] && key(tokens[at[i]]) != key(tokens[at[j]]))
    && (forall k :: 0 <= k < |tokens| ==> Covered(tokens, key, at, k))
  }

  ghost predicate Are(ids: seq<string>, tokens: seq<string>, at: seq<nat>)
    requires forall i :: 0 <= i < |at| ==> at[i] < |tokens|
  {
    |ids| == |at| && forall i :: 0 <= i < |at| ==> ids[i] == tokens[at[i]]
  }

  /** The first tokens of each key, by their places in the input. */
  lemma {:induction false} FirstsKept<K>(tokens: seq<string>, key: string -> K) returns (at: seq<nat>)
    ensures KeptAt(tokens, key, at) && Are(Firsts(tokens, key), tokens, at)
  {
    hide KeyIn;
    if tokens == [] {
      at := [];
    } else {
      var n := |tokens| - 1;
      var earlier, last := tokens[..n], tokens[n];
      var before := FirstsKept(earlier, key);
      assert tokens == earlier + [last];
      hide Firsts;
      if KeyIn(earlier, key, key(last)) {
        at := before;
        KeptRepeat(earlier, last, key, at);
      } else {
        at := before + [n];
        KeptAppend(earlier, last, key, before);
      }
    }
  }

  lemma StillCovered<K>(tokens: seq<string>, last: string, key: string -> K, at: seq<nat>, more: seq<nat>, k: nat)
    requires k < |tokens| && (forall i :: 0 <= i < |at| ==> at[i] < |tokens|) && Covered(tokens, key, at, k)
    requires forall i :: 0 <= i < |more| ==> more[i] == |tokens|
    ensures forall i :: 0 <= i < |at + more| ==> (at + more)[i] < |tokens + [last]|
    ensures Covered(tokens + [last], key, at + more, k)
  {
    var i :| 0 <= i < |at| && at[i] <= k && key(tokens[at[i]]) == key(tokens[k]);
    assert (at + more)[i] == at[i] && (tokens + [last])[at[i]] == tokens[at[i]];
  }

  lemma KeptRepeat<K>(tokens: seq<string>, last: string, key: string -> K, at: seq<nat>)
    requires KeptAt(tokens, key, at) && KeyIn(tokens, key, key(last))
    ensures KeptAt(tokens + [last], key, at)
  {
    var all := tokens + [last];
    assert at + [] == at;
    var k :| 0 <= k < |tokens| && key(tokens[k]) == key(last);
    assert Covered(tokens, key, at, k);
    var i :| 0 <= i < |at| && at[i] <= k && key(tokens[at[i]]) == key(tokens[k]);
    assert all[at[i]] == tokens[at[i]] && Covered(all, key, at, |tokens|);
    hide Covered;
    forall k | 0 <= k < |tokens| ensures Covered(all, key, at, k) { StillCovered(tokens, last, key, at, [], k); }
  }

  lemma KeptAppend<K>(tokens: seq<string>, last: string, key: string -> K, at: seq<nat>)
    requires KeptAt(tokens, key, at) && !KeyIn(tokens, key, key(last))
    ensures KeptAt(tokens + [last], key, at + [|tokens|])
  {
    var all, places := tokens + [last], at + [|tokens|];
    assert places[|at|] == |tokens| && all[|tokens|] == last && Covered(all, key, places, |tokens|);
    hide Covered;
    forall i, j | 0 <= i < j < |places| ensures places[i] < places[j] && key(all[places[i]]) != key(all[places[j]]) {
      assert key(tokens[at[i]]) != key(last);
    }
    forall k | 0 <= k < |tokens| ensures Covered(all, key, places, k) {
      StillCovered(tokens, last, key, at, [|tokens|], k);
    }
  }

  /** Two keys that tell the same tokens apart keep the same ones. */
  lemma {:induction false} SameFirsts<K, L>(tokens: seq<string>, key: string -> K, other: string -> L)
    requires forall i, j :: 0 <= i < |tokens| && 0 <= j < |tokens| ==>
               (key(tokens[i]) == key(tokens[j]) <==> other(tokens[i]) == other(tokens[j]))
    ensures Firsts(tokens, key) == Firsts(tokens, other)
  {
    if tokens != [] {
      var n := |tokens| - 1;
      var earlier, last := tokens[..n], tokens[n];
      SameFirsts(earlier, key, other);
      if i :| 0 <= i < n && key(earlier[i]) == key(last) { assert other(earlier[i]) == other(last); }
      if i :| 0 <= i < n && other(earlier[i]) == other(last) { assert key(earlier[i]) == key(last); }
    }
  }

  // --------------------------------------------------------------------- the loop

  lemma {:induction false} FirstBadPrefix(a: seq<string>, t: string, b: seq<string>, accepts: string -> bool)
    requires AllAccepted(a, accepts) && !accepts(t)
    ensures !AllAccepted(a + [t] + b, accepts) && FirstBad(a + [t] + b, accepts) == t
  {
    var all := a + [t] + b;
    assert all[|a|] == t;
    if a != [] {
      assert all[0] == a[0] && all[1..] == a[1..] + [t] + b;
      FirstBadPrefix(a[1..], t, b, accepts);
    }
  }

  lemma {:induction false} NonBlankConcat(a: seq<string>, b: seq<string>)
    ensures NonBlank(a + b) == NonBlank(a) + NonBlank(b)
  {
    assert NonBlank([]) == [];
    hide NonBlank, TrimSpace;
    if b == [] {
      assert a + b == a;
    } else {
      var c, last := b[..|b| - 1], b[|b| - 1];
      NonBlankConcat(a, c);
      assert b == c + [last] && a + b == (a + c) + [last];
      NonBlankAppend(a + c, last);
      NonBlankAppend(c, last);
    }
  }

  lemma NonBlankAppend(a: seq<string>, last: string)
    ensures NonBlank(a + [last]) == if TrimSpace(last) == "" then NonBlank(a) else NonBlank(a) + [TrimSpace(last)]
  {
    hide TrimSpace;
    assert (a + [last])[..|a|] == a;
  }

  /** After the tokens so far: all accepted, their first ones kept, their keys seen. */
  ghost predicate Progress<K(!new)>(tokens: seq<string>, accepts: string -> bool, key: string -> K, ids: seq<string>,
                                    seen: set<K>)
  {
    && AllAccepted(tokens, accepts) && ids == Firsts(tokens, key)
    && forall x :: x in seen <==> KeyIn(tokens, key, x)
  }

  /** The first token that is not accepted decides the result. */
  lemma StopAt<K>(raw: seq<string>, k: nat, accepts: string -> bool, key: string -> K)
    requires k < |raw| && AllAccepted(NonBlank(raw[..k]), accepts)
    requires TrimSpace(raw[k]) != "" && !accepts(TrimSpace(raw[k]))
    ensures Collected(raw, accepts, key) == NotAnId(TrimSpace(raw[k]))
  {
    hide TrimSpace, NonBlank, Firsts, FirstBad;
    var s := TrimSpace(raw[k]);
    assert raw == raw[..k] + [raw[k]] + raw[k + 1..];
    NonBlankAppend(raw[..k], raw[k]);
    NonBlankConcat(raw[..k] + [raw[k]], raw[k + 1..]);
    FirstBadPrefix(NonBlank(raw[..k]), s, NonBlank(raw[k + 1..]), accepts);
  }

  lemma ProgressToken<K(!new)>(tokens: seq<string>, s: string, accepts: string -> bool, key: string -> K,
                               ids: seq<string>, seen: set<K>)
    requires Progress(tokens, accepts, key, ids, seen) && accepts(s)
    ensures key(s) in seen ==> Progress(tokens + [s], accepts, key, ids, seen)
    ensures key(s) !in seen ==> Progress(tokens + [s], accepts, key, ids + [s], seen + {key(s)})
  {
    hide KeyIn, Firsts;
    FirstsAppend(tokens, s, key);
    forall x ensures KeyIn(tokens + [s], key, x) <==> KeyIn(tokens, key, x) || key(s) == x {
      KeyInAppend(tokens, s, key, x);
    }
  }

  lemma NoTokens<K(!new)>(accepts: string -> bool, key: string -> K)
    ensures Progress(NonBlank([]), accepts, key, [], {})
  {}

  /** The loop of `collectBatchIDs`. */
  method CollectBatchIds<K(==, !new)>(raw: seq<string>, isInteger: string -> bool, key: string -> K)
    returns (r: IdsResult)
    ensures r == Collected(raw, isInteger, key)
  {
    hide TrimSpace, NonBlank, Progress;
    var seen: set<K> := {};
    var ids: seq<string> := [];
    assert raw[..0] == [];
    NoTokens(isInteger, key);
    for k := 0 to |raw|
      invariant Progress(NonBlank(raw[..k]), isInteger, key, ids, seen)
    {
      var s := TrimSpace(raw[k]);
      assert raw[..k + 1] == raw[..k] + [raw[k]];
      NonBlankAppend(raw[..k], raw[k]);
      if s == "" { continue; }
      if !isInteger(s) {
        AcceptedSoFar(NonBlank(raw[..k]), isInteger, key, ids, seen);
        StopAt(raw, k, isInteger, key);
        return NotAnId(s);
      }
      ProgressToken(NonBlank(raw[..k]), s, isInteger, key, ids, seen);
      var canonical := key(s);
      if canonical in seen { continue; }
      seen := seen + {canonical};
      ids := ids + [s];
    }
    assert raw[..|raw|] == raw;
    AcceptedSoFar(NonBlank(raw), isInteger, key, ids, seen);
    if |ids| == 0 { return MissingIds; }
    if |ids| > MAX_BATCH_IDS { return TooMany(|ids|); }
    return Ids(ids);
  }

  lemma AcceptedSoFar<K(!new)>(tokens: seq<string>, accepts: string -> bool, key: string -> K, ids: seq<string>,
                               seen: set<K>)
    requires Progress(tokens, accepts, key, ids, seen)
    ensures AllAccepted(tokens, accepts) && ids == Firsts(tokens, key)
  {}

  // ------------------------------------------------------- what is collected

  /** The places of the items that are not blank, in order. */
  ghost predicate CountingPlaces(raw: seq<string>, n: nat, places: seq<nat>)
    requires n <= |raw|
  {
    && (forall i, j :: 0 <= i < j < |places| ==> places[i] < places[j])
    && (forall i :: 0 <= i < |places| ==> places[i] < n)
    && forall k: nat :: k < n ==> (k in places <==> TrimSpace(raw[k]) != "")
  }

  lemma NoPlaces(raw: seq<string>)
    ensures CountingPlaces(raw, 0, []) && NonBlank(raw[..0]) == []
  {}

  lemma OnePlaceMore(raw: seq<string>, n: nat, places: seq<nat>)
    requires n < |raw| && CountingPlaces(raw, n, places)
    ensures CountingPlaces(raw, n + 1, if TrimSpace(raw[n]) == "" then places else places + [n])
  {
    hide TrimSpace;
  }

  lemma {:induction false} NonBlankPlaces(raw: seq<string>, n: nat) returns (places: seq<nat>)
    requires n <= |raw|
    ensures CountingPlaces(raw, n, places) && |NonBlank(raw[..n])| == |places|
    ensures forall i :: 0 <= i < |places| ==> NonBlank(raw[..n])[i] == TrimSpace(raw[places[i]])
  {
    hide TrimSpace, NonBlank, CountingPlaces;
    if n == 0 {
      NoPlaces(raw);
      places := [];
    } else {
      var before := NonBlankPlaces(raw, n - 1);
      assert raw[..n] == raw[..n - 1] + [raw[n - 1]];
      NonBlankAppend(raw[..n - 1], raw[n - 1]);
      OnePlaceMore(raw, n - 1, before);
      places := if TrimSpace(raw[n - 1]) == "" then before else before + [n - 1];
    }
  }

  /** The first item that counts and is no ID. */
  ghost predicate FirstFault(raw: seq<string>, accepts: string -> bool, k: nat) {
    && k < |raw| && TrimSpace(raw[k]) != "" && !accepts(TrimSpace(raw[k]))
    && forall j :: 0 <= j < k && TrimSpace(raw[j]) != "" ==> accepts(TrimSpace(raw[j]))
  }

  /** The items at these places count, have different keys, and come before every other one
      that counts and has such a key. */
  ghost predicate FirstOfEach<K>(raw: seq<string>, key: string -> K, at: seq<nat>) {
    && (forall i :: 0 <= i < |at| ==> at[i] < |raw| && TrimSpace(raw[at[i]]) != "")
    && (forall i, j :: 0 <= i < j < |at| ==> at[i] < at[j] && key(TrimSpace(raw[at[i]])) != key(TrimSpace(raw[at[j]])))
    && forall k: nat :: k < |raw| && TrimSpace(raw[k]) != "" ==> KeyBefore(raw, key, at, k)
  }

  ghost predicate KeyBefore<K>(raw: seq<string>, key: string -> K, at: seq<nat>, k: nat)
    requires k < |raw| && forall i :: 0 <= i < |at| ==> at[i] < |raw|
  {
    exists i :: 0 <= i < |at| && at[i] <= k && key(TrimSpace(raw[at[i]])) == key(TrimSpace(raw[k]))
  }

  /** What an input gives: its first item that is no ID; else the first of each key, blanks
      around it removed; unless there is none or there are more than 200. */
  lemma CollectsExactly<K>(raw: seq<string>, accepts: string -> bool, key: string -> K) returns (at: seq<nat>)
    ensures FirstOfEach(raw, key, at)
    ensures forall k: nat :: FirstFault(raw, accepts, k) ==> Collected(raw, accepts, key) == NotAnId(TrimSpace(raw[k]))
    ensures (forall k: nat :: !FirstFault(raw, accepts, k)) ==>
              Collected(raw, accepts, key) ==
              if at == [] then MissingIds
              else if |at| > 200 then TooMany(|at|)
              else Ids(seq(|at|, i requires 0 <= i < |at| => TrimSpace(raw[at[i]])))
  {
    hide TrimSpace, NonBlank, Firsts, FirstBad, KeptAt, KeyBefore, CountingPlaces;
    var tokens := NonBlank(raw);
    var places := NonBlankPlaces(raw, |raw|);
    assert raw[..|raw|] == raw;
    var kept := FirstsKept(tokens, key);
    at := KeptPlaces(raw, tokens, places, key, kept);
    forall k: nat | FirstFault(raw, accepts, k) ensures Collected(raw, accepts, key) == NotAnId(TrimSpace(raw[k])) {
      FaultDecides(raw, accepts, key, k);
    }
    if forall k: nat :: !FirstFault(raw, accepts, k) {
      NoFault(raw, accepts, tokens, places);
      assert Firsts(tokens, key) == seq(|at|, i requires 0 <= i < |at| => TrimSpace(raw[at[i]]));
    }
  }

  lemma FaultDecides<K>(raw: seq<string>, accepts: string -> bool, key: string -> K, k: nat)
    requires FirstFault(raw, accepts, k)
    ensures Collected(raw, accepts, key) == NotAnId(TrimSpace(raw[k]))
  {
    hide TrimSpace, NonBlank, Collected;
    AcceptedBefore(raw, accepts, k);
    StopAt(raw, k, accepts, key);
  }

  lemma AcceptedBefore(raw: seq<string>, accepts: string -> bool, k: nat)
    requires FirstFault(raw, accepts, k)
    ensures AllAccepted(NonBlank(raw[..k]), accepts)
  {
    hide TrimSpace, NonBlank;
    var places := NonBlankPlaces(raw, k);
    forall i | 0 <= i < |places| ensures accepts(NonBlank(raw[..k])[i]) {
      assert places[i] in places;
    }
  }

  lemma NoFault(raw: seq<string>, accepts: string -> bool, tokens: seq<string>, places: seq<nat>)
    requires CountingPlaces(raw, |raw|, places) && |tokens| == |places|
    requires forall i :: 0 <= i < |places| ==> tokens[i] == TrimSpace(raw[places[i]])
    requires forall k: nat :: !FirstFault(raw, accepts, k)
    ensures AllAccepted(tokens, accepts)
  {
    hide TrimSpace;
    forall k | 0 <= k < |raw| && TrimSpace(raw[k]) != "" ensures accepts(TrimSpace(raw[k])) {
      NoneUpTo(raw, accepts, k + 1);
    }
    forall i | 0 <= i < |tokens| ensures accepts(tokens[i]) { assert places[i] in places; }
  }

  lemma {:induction false} NoneUpTo(raw: seq<string>, accepts: string -> bool, n: nat)
    requires n <= |raw| && forall k: nat :: !FirstFault(raw, accepts, k)
    ensures forall j :: 0 <= j < n && TrimSpace(raw[j]) != "" ==> accepts(TrimSpace(raw[j]))
  {
    hide TrimSpace;
    if n > 0 {
      NoneUpTo(raw, accepts, n - 1);
      assert !FirstFault(raw, accepts, n - 1);
    }
  }

  lemma KeptPlaces<K>(raw: seq<string>, tokens: seq<string>, places: seq<nat>, key: string -> K, kept: seq<nat>)
    returns (at: seq<nat>)
    requires CountingPlaces(raw, |raw|, places) && |tokens| == |places|
    requires forall i :: 0 <= i < |places| ==> tokens[i] == TrimSpace(raw[places[i]])
    requires KeptAt(tokens, key, kept)
    ensures FirstOfEach(raw, key, at) && |at| == |kept|
    ensures forall i :: 0 <= i < |at| ==> TrimSpace(raw[at[i]]) == tokens[kept[i]]
  {
    hide TrimSpace, Covered, KeyBefore;
    at := seq(|kept|, i requires 0 <= i < |kept| => places[kept[i]]);
    forall i | 0 <= i < |at| ensures at[i] < |raw| && TrimSpace(raw[at[i]]) != "" { assert at[i] in places; }
    forall k: nat | k < |raw| && TrimSpace(raw[k]) != "" ensures KeyBefore(raw, key, at, k) {
      assert k in places;
      var j :| 0 <= j < |places| && places[j] == k;
      CoveredBefore(raw, tokens, places, key, kept, at, j);
    }
  }

  lemma CoveredBefore<K>(raw: seq<string>, tokens: seq<string>, places: seq<nat>, key: string -> K, kept: seq<nat>,
                         at: seq<nat>, j: nat)
    requires |tokens| == |places| && (forall i :: 0 <= i < |places| ==> places[i] < |raw|)
    requires forall i, k :: 0 <= i < k < |places| ==> places[i] < places[k]
    requires forall i :: 0 <= i < |places| ==> tokens[i] == TrimSpace(raw[places[i]])
    requires (forall i :: 0 <= i < |kept| ==> kept[i] < |tokens|) && j < |tokens| && Covered(tokens, key, kept, j)
    requires |at| == |kept| && forall i :: 0 <= i < |at| ==> at[i] == places[kept[i]]
    ensures KeyBefore(raw, key, at, places[j])
  {
    hide TrimSpace;
    var i :| 0 <= i < |kept| && kept[i] <= j && key(tokens[kept[i]]) == key(tokens[j]);
    assert at[i] <= places[j];
  }
}
