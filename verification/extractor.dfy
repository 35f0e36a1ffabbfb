/**
 The generator's extraction step: keep the paid keysend invoices, read the podcast
 metadata from each one's description, sort the boosts newest first, and collect the
 podcasts for the page's podcast filter.
 */
module Extractor {
  import opened Wrappers
  import opened Text
  import opened Ordered
  import opened Sorting
  import opened Selecting
  import opened Boosts

  /** The fields of one invoice record that the extractor reads. */
  datatype Invoice = Invoice(
    labelText: string,
    status: string,
    paidAt: int,
    amountReceivedMsat: int,
    description: string)

  /** The key/value pairs of a decoded description object. */
  type Metadata = map<string, string>

  /**
   The JSON decoder, as a parameter: the metadata object for a text that decodes,
   `None` for one it rejects (the `JSONDecodeError` branch).
   */
  type Parser = string -> Option<Metadata>

  const KeysendLabel: string := "keysend"
  const PaidStatus: string := "paid"
  const KeysendMarker: string := "keysend: "

  /** The invoice is a keysend payment that has been paid. */
  predicate Qualifies(inv: Invoice) {
    StartsWith(inv.labelText, KeysendLabel) && inv.status == PaidStatus
  }

  /**
   The description with every `"keysend: "` removed, the text handed to the decoder;
   it reaches the decoder unchanged exactly when it holds no marker.
   */
  function MetadataText(description: string): (r: string)
    ensures |r| <= |description|
    ensures r == description <==> !Contains(description, KeysendMarker)
  {
    RemoveAllUnchangedIff(description, KeysendMarker);
    RemoveAll(description, KeysendMarker)
  }

  /** `details.get(key, '')`. */
  function Field(meta: Metadata, key: string): string {
    if key in meta then meta[key] else ""
  }

  /** The received amount in satoshis, exactly one thousandth of the millisatoshi amount. */
  function Sats(msat: int): (v: real)
    ensures v * 1000.0 == msat as real
    ensures msat >= 0 ==> v >= 0.0
  {
    msat as real / 1000.0
  }

  /** The boost record built from a qualifying invoice and its decoded metadata. */
  function MakeBoost(inv: Invoice, meta: Metadata): (b: Boost)
    ensures b.timestamp == inv.paidAt
    ensures b.podcast == (if "podcast" in meta then meta["podcast"] else "")
    ensures b.episode == (if "episode" in meta then meta["episode"] else "")
    ensures b.sender == (if "sender_name" in meta then meta["sender_name"] else "")
    ensures b.message == (if "message" in meta then meta["message"] else "")
    ensures b.value * 1000.0 == inv.amountReceivedMsat as real
  {
    Boost(
      inv.paidAt,
      Field(meta, "podcast"),
      Field(meta, "episode"),
      Field(meta, "sender_name"),
      Field(meta, "message"),
      Sats(inv.amountReceivedMsat))
  }

  /** One pass of the invoice loop: the boost this invoice contributes, if any. */
  function ExtractOne(inv: Invoice, parse: Parser): (r: Option<Boost>)
    ensures r.Some? <==> Qualifies(inv) && parse(MetadataText(inv.description)).Some?
    ensures r.Some? ==> r.value == MakeBoost(inv, parse(MetadataText(inv.description)).value)
  {
    if !Qualifies(inv) then None
    else
      match parse(MetadataText(inv.description))
      case None => None
      case Some(meta) => Some(MakeBoost(inv, meta))
  }

  /** The invoice loop's body as a function of the invoice. */
  function Step(parse: Parser): Invoice -> Option<Boost> {
    (inv: Invoice) => ExtractOne(inv, parse)
  }

  /** The boosts of `invs` in invoice order, before sorting. */
  function ExtractAll(invs: seq<Invoice>, parse: Parser): (r: seq<Boost>)
    ensures |r| <= |invs|
  {
    Collect(invs, Step(parse))
  }

  /** The invoice loop, appending to the boost list as it goes. */
  method ExtractBoosts(invs: seq<Invoice>, parse: Parser) returns (boosts: seq<Boost>)
    ensures boosts == ExtractAll(invs, parse)
  {
    boosts := [];
    var i := 0;
    while i < |invs|
      invariant 0 <= i <= |invs|
      invariant boosts == ExtractAll(invs[..i], parse)
    {
      var inv := invs[i];
      assert invs[..i + 1][..i] == invs[..i];
      if StartsWith(inv.labelText, KeysendLabel) && inv.status == PaidStatus {
        var details := parse(MetadataText(inv.description));
        if details.Some? {
          boosts := boosts + [MakeBoost(inv, details.value)];
        }
      }
      i := i + 1;
    }
    assert invs[..|invs|] == invs;
  }

  /**
   An invoice in the middle of the list contributes exactly its own boost at its own
   place; one that is skipped (not a paid keysend, or a description that does not
   decode) leaves the boosts of every other invoice as they were.
   */
  lemma InvoiceContribution(a: seq<Invoice>, inv: Invoice, b: seq<Invoice>, parse: Parser)
    ensures ExtractOne(inv, parse).None? ==>
      ExtractAll(a + [inv] + b, parse) == ExtractAll(a + b, parse)
    ensures ExtractOne(inv, parse).Some? ==>
      ExtractAll(a + [inv] + b, parse)
        == ExtractAll(a, parse) + [ExtractOne(inv, parse).value] + ExtractAll(b, parse)
  {
    var f := Step(parse);
    CollectAppend(a + [inv], b, f);
    CollectAppend(a, [inv], f);
    CollectAppend(a, b, f);
    CollectSingle(inv, f);
  }

  /** The positions of the invoices that contribute a boost. */
  function Contributors(invs: seq<Invoice>, parse: Parser): (idx: seq<int>)
    ensures forall k :: 0 <= k < |idx| ==> 0 <= idx[k] < |invs| && Qualifies(invs[idx[k]])
    ensures forall k, l :: 0 <= k < l < |idx| ==> idx[k] < idx[l]
  {
    var idx := Sources(invs, Step(parse));
    assert forall k :: 0 <= k < |idx| ==> ExtractOne(invs[idx[k]], parse).Some?;
    idx
  }

  /**
   Exactly one boost per contributing invoice, in invoice order: every paid keysend
   invoice whose metadata decodes is a contributor, the contributors are listed in
   increasing order (so each once), and the k-th boost is the one built from the k-th
   contributor.
   */
  lemma ExtractAllFromContributors(invs: seq<Invoice>, parse: Parser)
    ensures forall i :: 0 <= i < |invs| && Qualifies(invs[i])
                        && parse(MetadataText(invs[i].description)).Some?
                        ==> i in Contributors(invs, parse)
    ensures |ExtractAll(invs, parse)| == |Contributors(invs, parse)|
    ensures forall k :: 0 <= k < |Contributors(invs, parse)| ==>
      Some(ExtractAll(invs, parse)[k]) == ExtractOne(invs[Contributors(invs, parse)[k]], parse)
  {
    var f := Step(parse);
    CollectFromSources(invs, f);
    forall i | 0 <= i < |invs| && Qualifies(invs[i]) && parse(MetadataText(invs[i].description)).Some?
      ensures i in Contributors(invs, parse)
    {
      assert f(invs[i]).Some?;
      SourcesComplete(invs, f, i);
    }
  }

  /** `"keysend: "` has no border, so its occurrences never overlap. */
  lemma MarkerBorderFree()
    ensures BorderFree(KeysendMarker)
  {
    var pat := KeysendMarker;
    forall k | 0 < k < |pat|
      ensures pat[..k] != pat[|pat| - k..]
    {
      assert pat[..k][0] == 'k';
      assert pat[|pat| - k..][0] == pat[|pat| - k] != 'k';
    }
  }

  /** The usual shape: a leading marker and a marker-free JSON text give back that text. */
  lemma MetadataTextStripsPrefix(json: string)
    requires !Contains(json, KeysendMarker)
    ensures MetadataText(KeysendMarker + json) == json
  {
    LeadingOccurrenceStripped(KeysendMarker, json);
  }

  /**
   Every occurrence is removed, wherever it stands: a marker in the middle of a
   description vanishes and the text on either side is treated independently.
   */
  lemma MetadataTextRemovesEveryMarker(a: string, b: string)
    ensures MetadataText(a + KeysendMarker + b) == MetadataText(a) + MetadataText(b)
  {
    MarkerBorderFree();
    RemoveAllSplits(a, KeysendMarker, b);
  }

  /** `<option value="p">p</option>`, without HTML escaping. */
  function OptionTag(p: string): (tag: string)
    ensures '\n' in tag <==> '\n' in p
  {
    "<option value=\"" + p + "\">" + p + "</option>"
  }

  /** One option tag per podcast, in order. */
  function OptionTags(ps: seq<string>): (tags: seq<string>)
    ensures |tags| == |ps|
    ensures forall i :: 0 <= i < |ps| ==> tags[i] == OptionTag(ps[i])
  {
    if |ps| == 0 then [] else [OptionTag(ps[0])] + OptionTags(ps[1..])
  }

  /**
   The podcast select's option markup, one tag per line: empty when there are no
   podcasts, and otherwise, when no podcast name contains a line break, it splits back
   into exactly one tag per podcast, in order.
   */
  function PodcastOptions(ps: seq<string>): (markup: string)
    ensures |ps| == 0 ==> markup == ""
    ensures |ps| > 0 && (forall i :: 0 <= i < |ps| ==> '\n' !in ps[i])
            ==> Split(markup, '\n') == OptionTags(ps)
  {
    var markup := Join(OptionTags(ps), "\n");
    if |ps| > 0 && (forall i :: 0 <= i < |ps| ==> '\n' !in ps[i]) then
      SplitJoin(OptionTags(ps), '\n');
      markup
    else markup
  }

  /** What the generator hands to the page template. */
  datatype Report = Report(boosts: seq<Boost>, podcasts: seq<string>, podcastOptions: string)

  /**
   The whole extraction: boosts newest first (ties in invoice order), and the podcasts
   of those boosts, each once, in ascending order, with their option markup.
   */
  method BuildReport(invs: seq<Invoice>, parse: Parser) returns (rep: Report)
    ensures rep.boosts == SortBy(ExtractAll(invs, parse), Timestamp, false)
    ensures multiset(rep.boosts) == multiset(ExtractAll(invs, parse))
    ensures forall i, j :: 0 <= i < j < |rep.boosts| ==> rep.boosts[i].timestamp >= rep.boosts[j].timestamp
    ensures forall k :: TiesWith(rep.boosts, Comparator(Timestamp, false), k)
                     == TiesWith(ExtractAll(invs, parse), Comparator(Timestamp, false), k)
    ensures StrictlyAscending(rep.podcasts)
    ensures forall p :: p in rep.podcasts <==> exists b :: b in ExtractAll(invs, parse) && b.podcast == p
    ensures rep.podcastOptions == PodcastOptions(rep.podcasts)
  {
    var extracted := ExtractBoosts(invs, parse);
    var sorted := SortBy(extracted, Timestamp, false);
    DescendingTimestamps(sorted);
    forall k
      ensures TiesWith(sorted, Comparator(Timestamp, false), k)
           == TiesWith(extracted, Comparator(Timestamp, false), k)
    {
      SortByStable(extracted, Timestamp, false, k);
    }
    var index := EpisodeIndex(sorted);
    var podcasts := SortedSet(index.Keys);
    forall p
      ensures p in podcasts <==> exists b :: b in extracted && b.podcast == p
    {
      PodcastOfSomeBoost(sorted, extracted, p);
    }
    rep := Report(sorted, podcasts, PodcastOptions(podcasts));
  }

  /** Reordering the boosts does not change which podcasts occur among them. */
  lemma PodcastOfSomeBoost(sorted: seq<Boost>, bs: seq<Boost>, p: string)
    requires multiset(sorted) == multiset(bs)
    ensures (exists i :: 0 <= i < |sorted| && sorted[i].podcast == p)
        <==> exists b :: b in bs && b.podcast == p
  {
    if exists i :: 0 <= i < |sorted| && sorted[i].podcast == p {
      var i :| 0 <= i < |sorted| && sorted[i].podcast == p;
      assert sorted[i] in multiset(bs);
    }
    if exists b :: b in bs && b.podcast == p {
      var b :| b in bs && b.podcast == p;
      assert b in multiset(sorted);
      var i :| 0 <= i < |sorted| && sorted[i] == b;
    }
  }
}
