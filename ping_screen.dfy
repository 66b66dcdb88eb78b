/**
 * `PingActivity`: the screen of one ping. It holds the ping's `PingInfo`,
 * adds the tags typed into the new-tag field, toggles a tag when its
 * button is pressed, searches the known tags by prefix as the user types,
 * and moves to the previous or the next ping.
 */
module PingScreen {
  import opened KotlinLong
  import opened KotlinText
  import opened Time
  import opened Schedule
  import opened TagText

  /** `data class PingInfo`: the notes and the tags of one ping. */
  class PingInfo {
    var notes: string
    var tags: set<string>

    /** `PingInfo()`: no notes and no tags. */
    constructor ()
      ensures notes == [] && tags == {}
    {
      notes := [];
      tags := {};
    }
  }

  /** `tags` with `tag` flipped: `tags - tag` when it is there, `tags + tag` otherwise. */
  function Toggled(tags: set<string>, tag: string): (r: set<string>)
    ensures tag in r <==> tag !in tags
    ensures forall t :: t != tag ==> (t in r <==> t in tags)
  {
    if tag in tags then tags - {tag} else tags + {tag}
  }

  /** Pressing the same tag twice gives back the tags one started with. */
  lemma ToggleTwice(tags: set<string>, tag: string)
    ensures Toggled(Toggled(tags, tag), tag) == tags
  {
    var once := Toggled(tags, tag);
    assert forall t :: t in Toggled(once, tag) <==> t in tags;
  }

  /** `tag.lowercase().startsWith(q.lowercase())` for some query `q`. */
  predicate MatchesSome(tag: string, queries: set<string>, lowercase: string -> string)
  {
    exists q :: q in queries && lowercase(q) <= lowercase(tag)
  }

  /**
   * The search results under the new-tag field: the tags among the known
   * ones and the ping's own that some query starts, ignoring case.
   * `lowercase` is Kotlin's `String.lowercase()`.
   */
  function SearchResults(known: set<string>, tags: set<string>, queries: set<string>,
                         lowercase: string -> string): (r: set<string>)
    ensures r <= known + tags
    ensures queries == {} ==> r == {}
  {
    set t | t in known + tags && MatchesSome(t, queries, lowercase)
  }

  /** A tag that is typed in full as a query, in any case, is among the results. */
  lemma SearchFindsTypedTag(known: set<string>, tags: set<string>, queries: set<string>,
                            lowercase: string -> string, q: string, t: string)
    requires q in queries && t in known + tags && lowercase(q) == lowercase(t)
    ensures t in SearchResults(known, tags, queries, lowercase)
  {
    assert MatchesSome(t, queries, lowercase);
  }

  /** Typing more queries never loses a result. */
  lemma SearchGrowsWithQueries(known: set<string>, tags: set<string>, queries: set<string>,
                               more: set<string>, lowercase: string -> string)
    requires queries <= more
    ensures SearchResults(known, tags, queries, lowercase) <= SearchResults(known, tags, more, lowercase)
  {
    forall t | t in SearchResults(known, tags, queries, lowercase)
      ensures MatchesSome(t, more, lowercase)
    {
      var q :| q in queries && lowercase(q) <= lowercase(t);
      assert q in more;
    }
  }

  /** A new-tag field of nothing but whitespace and commas finds nothing. */
  lemma BlankFieldFindsNothing(known: set<string>, tags: set<string>, text: string,
                               lowercase: string -> string)
    requires forall i :: 0 <= i < |text| ==> IsWhitespace(text[i]) || text[i] == ','
    ensures SearchResults(known, tags, Queries(text), lowercase) == {}
  {
    BlankTextHasNoTags(text);
  }

  /** The ping screen: the ping it shows, that ping's info and the new-tag field. */
  class PingScreen {
    const ping: Instant
    const info: PingInfo
    var newTagText: string

    /** `onCreate`: the stored info of the ping, or `PingInfo()` when nothing is stored. */
    constructor (ping: Instant, stored: PingInfo?)
      ensures this.ping == ping && newTagText == []
      ensures stored != null ==> info == stored
      ensures stored == null ==> fresh(info) && info.notes == [] && info.tags == {}
    {
      this.ping := ping;
      if stored == null {
        info := new PingInfo();
      } else {
        info := stored;
      }
      newTagText := [];
    }

    /**
     * The add-tags button: the ping gets every tag typed in the field,
     * keeps the tags it had, and the field is cleared.
     */
    method AddTags()
      modifies this, info
      ensures info.tags == old(info.tags) + set t | t in NewTags(old(newTagText))
      ensures old(info.tags) <= info.tags
      ensures forall t :: t in info.tags - old(info.tags) ==> IsCleanTag(t)
      ensures info.notes == old(info.notes) && newTagText == []
    {
      var newTags := NewTags(newTagText);
      info.tags := info.tags + set t | t in newTags;
      newTagText := [];
    }

    /** `toggleTag(tag)`: flip `tag` on this ping and leave the other tags alone. */
    method ToggleTag(tag: string)
      modifies info
      ensures info.tags == Toggled(old(info.tags), tag)
      ensures info.notes == old(info.notes)
    {
      if tag in info.tags {
        info.tags := info.tags - {tag};
      } else {
        info.tags := info.tags + {tag};
      }
    }

    /** The search results for what is typed in the new-tag field, among `known` and this ping's tags. */
    function Search(known: set<string>, lowercase: string -> string): (r: set<string>)
      reads this, info
      ensures r <= known + info.tags
    {
      SearchResults(known, info.tags, Queries(newTagText), lowercase)
    }

    /**
     * The previous-ping button: the second of `lastBefore(ping)`, the
     * nearest ping before this one. When this ping is a ping, the next
     * button of that screen leads back here.
     */
    method PrevSecond() returns (r: Result<Long>)
      requires ping.Valid()
      ensures r.Ok? <==> OfEpochSecond(LastPingBefore(ping.epochSecond)).Ok?
      ensures r.Ok? ==> PrevPing(ping.epochSecond, r.value) && MinSecond <= r.value
      ensures r.Ok? && IsPing(ping.epochSecond) ==> FirstPingAfter(r.value) == ping.epochSecond
    {
      var prev := LastBefore(ping);
      if prev.DateTimeException? {
        return DateTimeException;
      }
      if IsPing(ping.epochSecond) {
        FirstAfterLastBefore(ping.epochSecond);
      }
      return Ok(prev.value.epochSecond);
    }

    /**
     * The next-ping button: the second of `firstAfter(ping)`, the nearest
     * ping after this one. When this ping is a ping, the previous button of
     * that screen leads back here.
     */
    method NextSecond() returns (r: Result<Long>)
      requires ping.Valid()
      ensures r.Ok? <==> OfEpochSecond(FirstPingAfter(ping.epochSecond)).Ok?
      ensures r.Ok? ==> NextPing(ping.epochSecond, r.value) && r.value <= MaxSecond
      ensures r.Ok? && IsPing(ping.epochSecond) ==> LastPingBefore(r.value) == ping.epochSecond
    {
      var next := FirstAfter(ping);
      if next.DateTimeException? {
        return DateTimeException;
      }
      if IsPing(ping.epochSecond) {
        LastBeforeFirstAfter(ping.epochSecond);
      }
      return Ok(next.value.epochSecond);
    }

    /**
     * Whether the next-ping button stays enabled at `now`: it is disabled
     * when `firstAfter(ping)` is after `now`, so it is enabled exactly when
     * some ping after this one has already come.
     */
    method NextEnabled(now: Instant) returns (r: Result<bool>)
      requires ping.Valid() && now.Valid()
      ensures r.Ok? <==> OfEpochSecond(FirstPingAfter(ping.epochSecond)).Ok?
      ensures r.Ok? ==> (r.value <==> exists u: Long :: ping.epochSecond < u <= now.epochSecond && IsPing(u))
    {
      var next := FirstAfter(ping);
      if next.DateTimeException? {
        return DateTimeException;
      }
      var f := next.value.epochSecond;
      if f <= now.epochSecond {
        assert ping.epochSecond < f <= now.epochSecond && IsPing(f);
      }
      return Ok(!now.IsBefore(next.value));
    }
  }
}
