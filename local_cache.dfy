/**
 * The browser-side caches of the reading guide and of the annotated text:
 * each is one slot of the key-value store, holding the serialised record
 * of the last save, and a load returns the saved value only for the same
 * Sunday.
 *
 * JSON is modelled at the level of what a load can see: a stored value is
 * either unparseable or an object whose fields may be missing. The save
 * timestamp comes from the clock and is a parameter.
 */
module LocalCache {
  import opened Text
  import ReadingContext

  const ContextCacheKey := "ccsh-context-cache"
  const AnnotateCacheKey := "ccsh-annotate-cache"

  /** The fields of a parsed slot a load looks at; each may be missing. */
  datatype Record = Record(
    sundayTitle: Option<string>,
    readings: Option<seq<ReadingContext.Entry>>,
    annotated: Option<string>,
    timestamp: Option<int>)

  /** A stored value as `JSON.parse` sees it. */
  datatype Stored = Unparseable | Parsed(record: Record)

  /** `loadContextFromCache` on a store: the readings of a slot saved for `sundayTitle`. */
  function LoadContextFrom(items: map<string, Stored>, sundayTitle: string): (r: Option<seq<ReadingContext.Entry>>)
    ensures r.Some? ==> ContextCacheKey in items && items[ContextCacheKey].Parsed?
                        && items[ContextCacheKey].record.sundayTitle == Some(sundayTitle)
                        && items[ContextCacheKey].record.readings == r
  {
    if ContextCacheKey !in items then None
    else match items[ContextCacheKey]
      case Unparseable => None
      case Parsed(rec) =>
        if rec.sundayTitle == Some(sundayTitle) && rec.readings.Some? then rec.readings else None
  }

  /**
   * `loadAnnotateFromCache` on a store: the annotated text of a slot saved
   * for `sundayTitle`, unless it is empty.
   */
  function LoadAnnotateFrom(items: map<string, Stored>, sundayTitle: string): (r: Option<string>)
    ensures r.Some? ==> AnnotateCacheKey in items && items[AnnotateCacheKey].Parsed?
                        && items[AnnotateCacheKey].record.sundayTitle == Some(sundayTitle)
                        && items[AnnotateCacheKey].record.annotated == r && r.value != []
  {
    if AnnotateCacheKey !in items then None
    else match items[AnnotateCacheKey]
      case Unparseable => None
      case Parsed(rec) =>
        if rec.sundayTitle == Some(sundayTitle) && rec.annotated.Some? && rec.annotated.value != [] then rec.annotated
        else None
  }

  /** What `saveContextToCache` serialises. */
  function ContextRecord(sundayTitle: string, readings: seq<ReadingContext.Entry>, now: int): Stored {
    Parsed(Record(Some(sundayTitle), Some(readings), None, Some(now)))
  }

  /** What `saveAnnotateToCache` serialises. */
  function AnnotateRecord(sundayTitle: string, annotated: string, now: int): Stored {
    Parsed(Record(Some(sundayTitle), None, Some(annotated), Some(now)))
  }

  /** The key-value store the two caches share. */
  class Storage {
    var items: map<string, Stored>

    constructor()
      ensures items == map[]
    {
      items := map[];
    }

    method Clear()
      modifies this
      ensures items == map[]
    {
      items := map[];
    }

    /** `saveContextToCache`: overwrite the context slot. */
    method SaveContext(sundayTitle: string, readings: seq<ReadingContext.Entry>, now: int)
      modifies this
      ensures items == old(items)[ContextCacheKey := ContextRecord(sundayTitle, readings, now)]
    {
      items := items[ContextCacheKey := ContextRecord(sundayTitle, readings, now)];
    }

    /** `loadContextFromCache`. */
    method LoadContext(sundayTitle: string) returns (r: Option<seq<ReadingContext.Entry>>)
      ensures r == LoadContextFrom(items, sundayTitle)
    {
      if ContextCacheKey !in items {
        return None;
      }
      var raw := items[ContextCacheKey];
      if raw.Unparseable? {
        return None;
      }
      var parsed := raw.record;
      if parsed.sundayTitle == Some(sundayTitle) && parsed.readings.Some? {
        return parsed.readings;
      }
      return None;
    }

    /** `saveAnnotateToCache`: overwrite the annotate slot. */
    method SaveAnnotate(sundayTitle: string, annotated: string, now: int)
      modifies this
      ensures items == old(items)[AnnotateCacheKey := AnnotateRecord(sundayTitle, annotated, now)]
    {
      items := items[AnnotateCacheKey := AnnotateRecord(sundayTitle, annotated, now)];
    }

    /** `loadAnnotateFromCache`. */
    method LoadAnnotate(sundayTitle: string) returns (r: Option<string>)
      ensures r == LoadAnnotateFrom(items, sundayTitle)
    {
      if AnnotateCacheKey !in items {
        return None;
      }
      var raw := items[AnnotateCacheKey];
      if raw.Unparseable? {
        return None;
      }
      var parsed := raw.record;
      if parsed.sundayTitle == Some(sundayTitle) && parsed.annotated.Some? && parsed.annotated.value != [] {
        return parsed.annotated;
      }
      return None;
    }
  }

  // ---------------------------------------------------------------------------
  // Properties of the two caches
  // ---------------------------------------------------------------------------

  /** An empty store loads nothing. */
  lemma EmptyStoreLoadsNothing(sundayTitle: string)
    ensures LoadContextFrom(map[], sundayTitle) == None
    ensures LoadAnnotateFrom(map[], sundayTitle) == None
  {
  }

  /** A save followed by a load for the same Sunday gives back exactly the saved readings. */
  lemma ContextRoundTrip(items: map<string, Stored>, sundayTitle: string, readings: seq<ReadingContext.Entry>, now: int)
    ensures LoadContextFrom(items[ContextCacheKey := ContextRecord(sundayTitle, readings, now)], sundayTitle) == Some(readings)
  {
  }

  /** A save followed by a load for the same Sunday gives back a non-empty annotated text. */
  lemma AnnotateRoundTrip(items: map<string, Stored>, sundayTitle: string, annotated: string, now: int)
    requires annotated != []
    ensures LoadAnnotateFrom(items[AnnotateCacheKey := AnnotateRecord(sundayTitle, annotated, now)], sundayTitle)
      == Some(annotated)
  {
  }

  /** An empty annotated text is saved but loads as nothing. */
  lemma EmptyAnnotatedLoadsNothing(items: map<string, Stored>, sundayTitle: string, now: int)
    ensures LoadAnnotateFrom(items[AnnotateCacheKey := AnnotateRecord(sundayTitle, [], now)], sundayTitle) == None
  {
  }

  /** An empty list of readings, unlike an empty annotated text, loads as itself. */
  lemma EmptyReadingsLoad(items: map<string, Stored>, sundayTitle: string, now: int)
    ensures LoadContextFrom(items[ContextCacheKey := ContextRecord(sundayTitle, [], now)], sundayTitle) == Some([])
  {
  }

  /**
   * Each cache is one slot: after a save for one Sunday, a load for another
   * Sunday gives nothing, whatever was saved before.
   */
  lemma OneSlot(items: map<string, Stored>, saved: string, asked: string, readings: seq<ReadingContext.Entry>,
                annotated: string, now: int)
    requires saved != asked
    ensures LoadContextFrom(items[ContextCacheKey := ContextRecord(saved, readings, now)], asked) == None
    ensures LoadAnnotateFrom(items[AnnotateCacheKey := AnnotateRecord(saved, annotated, now)], asked) == None
  {
  }

  /** The two caches use different keys, so a save to one leaves loads from the other as they were. */
  lemma CachesIndependent(items: map<string, Stored>, sundayTitle: string, asked: string,
                          readings: seq<ReadingContext.Entry>, annotated: string, now: int)
    ensures LoadAnnotateFrom(items[ContextCacheKey := ContextRecord(sundayTitle, readings, now)], asked)
      == LoadAnnotateFrom(items, asked)
    ensures LoadContextFrom(items[AnnotateCacheKey := AnnotateRecord(sundayTitle, annotated, now)], asked)
      == LoadContextFrom(items, asked)
  {
    assert ContextCacheKey != AnnotateCacheKey by {
      assert ContextCacheKey[5] != AnnotateCacheKey[5];
    }
  }

  /** An unparseable slot loads as nothing. */
  lemma UnparseableLoadsNothing(items: map<string, Stored>, sundayTitle: string)
    ensures LoadContextFrom(items[ContextCacheKey := Unparseable], sundayTitle) == None
    ensures LoadAnnotateFrom(items[AnnotateCacheKey := Unparseable], sundayTitle) == None
  {
  }

  /** The test sequence of the context cache, run on a fresh store. */
  method ContextScenario(readings: seq<ReadingContext.Entry>, now: int)
    returns (empty: Option<seq<ReadingContext.Entry>>, same: Option<seq<ReadingContext.Entry>>,
             other: Option<seq<ReadingContext.Entry>>)
    ensures empty == None && same == Some(readings) && other == None
  {
    var store := new Storage();
    empty := store.LoadContext("test");
    store.SaveContext("7. neděle", readings, now);
    same := store.LoadContext("7. neděle");
    other := store.LoadContext("8. neděle");
    assert "7. neděle"[0] != "8. neděle"[0];
  }

  /** The test sequence of the annotate cache, run on a fresh store. */
  method AnnotateScenario(annotated: string, now: int)
    returns (empty: Option<string>, same: Option<string>, other: Option<string>)
    requires annotated != []
    ensures empty == None && same == Some(annotated) && other == None
  {
    var store := new Storage();
    empty := store.LoadAnnotate("test");
    store.SaveAnnotate("7. neděle", annotated, now);
    same := store.LoadAnnotate("7. neděle");
    other := store.LoadAnnotate("8. neděle");
    assert "7. neděle"[0] != "8. neděle"[0];
  }
}
