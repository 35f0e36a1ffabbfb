/**
 The episode filter's options, rebuilt whenever the podcast selection changes, and the
 podcast-to-episodes table the page builds for it when it loads.
 */
module Episodes {
  import opened Wrappers
  import opened Ordered
  import opened Boosts

  /** An `<option>` of a select element: its value and its visible text. */
  datatype SelectOption = SelectOption(value: string, text: string)

  /** The option that stands for "no episode selected". */
  const AllEpisodes: SelectOption := SelectOption("", "All Episodes")

  /** One option per episode, whose value and text are both the episode title. */
  function EpisodeOptionsFor(es: seq<string>): (opts: seq<SelectOption>)
    ensures |opts| == |es|
    ensures forall k :: 0 <= k < |es| ==> opts[k] == SelectOption(es[k], es[k])
  {
    if |es| == 0 then [] else [SelectOption(es[0], es[0])] + EpisodeOptionsFor(es[1..])
  }

  /** The values of a list of options, in order. */
  function Values(opts: seq<SelectOption>): (vs: seq<string>)
    ensures |vs| == |opts|
    ensures forall k :: 0 <= k < |opts| ==> vs[k] == opts[k].value
  {
    if |opts| == 0 then [] else [opts[0].value] + Values(opts[1..])
  }

  /**
   `updateEpisodeOptions`: "All Episodes" first, then the episodes on offer in ascending
   order, each once. With no podcast selected those are the episodes of every boost;
   otherwise the episodes of that podcast's boosts, and none for a podcast with no boosts.
   */
  method EpisodeOptions(bs: seq<Boost>, selectedPodcast: string) returns (opts: seq<SelectOption>)
    ensures |opts| >= 1 && opts[0] == AllEpisodes
    ensures forall k :: 1 <= k < |opts| ==> opts[k].text == opts[k].value
    ensures StrictlyAscending(Values(opts[1..]))
    ensures selectedPodcast == "" ==>
      forall e :: e in Values(opts[1..]) <==> exists i :: 0 <= i < |bs| && bs[i].episode == e
    ensures selectedPodcast != "" ==>
      forall e :: e in Values(opts[1..])
             <==> exists i :: 0 <= i < |bs| && bs[i].podcast == selectedPodcast && bs[i].episode == e
  {
    var index := EpisodeIndex(bs);
    var episodes: set<string>;
    if selectedPodcast == "" {
      episodes := set i | 0 <= i < |bs| :: bs[i].episode;
    } else {
      episodes := if selectedPodcast in index then index[selectedPodcast] else {};
      forall e
        ensures e in episodes
            <==> exists i :: 0 <= i < |bs| && bs[i].podcast == selectedPodcast && bs[i].episode == e
      {
        if selectedPodcast in index {
          EpisodeIndexEpisodes(bs, selectedPodcast, e);
        }
      }
    }
    var sorted := SortedSet(episodes);
    var rest := EpisodeOptionsFor(sorted);
    opts := [AllEpisodes] + rest;
    assert opts[1..] == rest;
    assert Values(rest) == sorted;
  }

  /**
   The names a plain JavaScript object already answers to before anything is stored
   in it: the members it inherits from `Object.prototype`.
   */
  const ObjectPrototypeMembers: set<string> := {
    "constructor", "__defineGetter__", "__defineSetter__", "hasOwnProperty",
    "__lookupGetter__", "__lookupSetter__", "isPrototypeOf", "propertyIsEnumerable",
    "toString", "valueOf", "__proto__", "toLocaleString"
  }

  /**
   The page's `podcastEpisodeMap` as written, a plain object `{}` filled by `forEach`.
   A podcast whose name is an inherited member already looks present, so no `Set` is
   created for it and the following `.add` call throws: `None` is that error, which
   stops the script before anything is rendered. The table is built exactly when no
   podcast is named after an inherited member, and then it holds what `EpisodeIndex`
   holds.
   */
  function JsEpisodeIndex(bs: seq<Boost>): (r: Option<map<string, set<string>>>)
    ensures r.Some? <==> forall i :: 0 <= i < |bs| ==> bs[i].podcast !in ObjectPrototypeMembers
    ensures r.Some? ==> r.value == EpisodeIndex(bs)
  {
    if |bs| == 0 then Some(map[])
    else
      var front := bs[..|bs| - 1];
      assert forall i :: 0 <= i < |front| ==> front[i] == bs[i];
      match JsEpisodeIndex(front)
      case None => None
      case Some(m) =>
        var b := bs[|bs| - 1];
        if b.podcast in m then Some(m[b.podcast := m[b.podcast] + {b.episode}])
        else if b.podcast in ObjectPrototypeMembers then None
        else
          var none: set<string> := {};
          assert none + {b.episode} == {b.episode};
          Some(m[b.podcast := {b.episode}])
  }

  /** A single boost from a podcast called "constructor" is enough to stop the page. */
  lemma JsEpisodeIndexFailsOnConstructor()
    ensures JsEpisodeIndex([Boost(1700000000, "constructor", "Episode 1", "Alice", "Hi", 100.0)]).None?
  {
    var bs := [Boost(1700000000, "constructor", "Episode 1", "Alice", "Hi", 100.0)];
    assert bs[..0] == [];
    assert "constructor" in ObjectPrototypeMembers;
  }
}
