/** The feed settings dialog (src/components/SettingsModal.tsx): the guards that decide
    whether a typed-in feed is added, and whether an imported payload reaches `importFeeds`.

    A parsed JSON payload is an abstract value: either not an array, or an array of elements
    each of which is `null`, some other non-object (whose `.name` is undefined), or an object
    whose `name` and `url` are absent or strings. URL validity (`new URL(...)` not throwing)
    is a predicate parameter, and the texts of the engine's own exceptions are parameters. */
module SettingsModal {
  import opened Types
  import Text
  import FeedManager

  const RequiredMessage := "Both name and URL are required."
  const InvalidUrlMessage := "Please enter a valid URL."
  const NotJsonMessage := "Please drop a valid JSON file."
  const InvalidFileMessage := "Invalid feed format in JSON file."
  const InvalidUrlImportMessage := "Invalid feed format from URL."
  const FetchFailedPrefix := "Fetch failed: "
  const JsonType := "application/json"

  // ---------------------------------------------------------------------------------------
  // Payloads and the `processImportedFeeds` test

  /** One element of an imported array. */
  datatype Entry =
    | NullEntry
    | Primitive
    | Record(name: Option<string>, url: Option<string>)

  /** What `JSON.parse` or `res.json()` produced. */
  datatype Payload = NotArray | ArrayOf(entries: seq<Entry>)

  /** How the test ended: true, false, or with the TypeError of reading a property of
      `null`. */
  datatype Verdict = Accepted | Rejected | Threw

  /** `f => f.name && f.url` on one element, or None when it throws. */
  function Check(e: Entry): Option<bool>
  {
    match e
    case NullEntry => None
    case Primitive => Some(false)
    case Record(name, url) => Some(Valid(e))
  }

  /** An object with a non-empty name and url. */
  predicate Valid(e: Entry)
  {
    e.Record? && Truthy(e.name) && Truthy(e.url)
  }

  /** `Array.prototype.every`: elements are examined left to right and the first falsy one
      ends the scan. */
  function Every(entries: seq<Entry>): Verdict
  {
    if entries == [] then Accepted
    else
      match Check(entries[0])
      case None => Threw
      case Some(false) => Rejected
      case Some(true) => Every(entries[1..])
  }

  /** The guard of `processImportedFeeds`. */
  function Validate(p: Payload): Verdict
  {
    match p
    case NotArray => Rejected
    case ArrayOf(entries) => Every(entries)
  }

  /** The scan accepts exactly when every element is an object with a non-empty name and
      url. */
  lemma {:induction false} EveryAccepted(entries: seq<Entry>)
    ensures Every(entries) == Accepted <==> forall i :: 0 <= i < |entries| ==> Valid(entries[i])
  {
    if entries != [] {
      EveryAccepted(entries[1..]);
      if Valid(entries[0]) {
        forall i | 0 <= i < |entries| && (forall k :: 0 <= k < |entries[1..]| ==> Valid(entries[1..][k]))
          ensures Valid(entries[i])
        {
          if i > 0 {
            assert entries[i] == entries[1..][i - 1];
          }
        }
      }
    }
  }

  /** The scan throws exactly when a `null` element comes before any invalid element. */
  lemma {:induction false} EveryThrew(entries: seq<Entry>)
    ensures Every(entries) == Threw
            <==> exists i :: 0 <= i < |entries| && entries[i] == NullEntry
                             && forall k :: 0 <= k < i ==> Valid(entries[k])
  {
    if entries != [] {
      EveryThrew(entries[1..]);
      var rest := entries[1..];
      if Valid(entries[0]) {
        if exists i :: 0 <= i < |rest| && rest[i] == NullEntry && forall k :: 0 <= k < i ==> Valid(rest[k]) {
          var i :| 0 <= i < |rest| && rest[i] == NullEntry && forall k :: 0 <= k < i ==> Valid(rest[k]);
          assert entries[i + 1] == NullEntry;
          forall k | 0 <= k < i + 1 ensures Valid(entries[k]) {
            if k > 0 {
              assert entries[k] == rest[k - 1];
            }
          }
        }
        if exists i :: 0 <= i < |entries| && entries[i] == NullEntry && forall k :: 0 <= k < i ==> Valid(entries[k]) {
          var i :| 0 <= i < |entries| && entries[i] == NullEntry && forall k :: 0 <= k < i ==> Valid(entries[k]);
          assert i > 0;
          assert rest[i - 1] == NullEntry;
          forall k | 0 <= k < i - 1 ensures Valid(rest[k]) {
            assert rest[k] == entries[k + 1];
          }
        }
      } else if entries[0] != NullEntry {
        assert !(0 < |entries| && entries[0] == NullEntry);
      }
    }
  }

  /** The feed an element stands for: its name and url, or empty texts where absent. */
  function FeedOf(e: Entry): (f: Feed)
    ensures Valid(e) ==> f == Feed(e.name.value, e.url.value) && FeedManager.Importable(f)
  {
    match e
    case Record(name, url) => Feed(name.GetOr(""), url.GetOr(""))
    case _ => Feed("", "")
  }

  /** The feeds the elements of an array stand for, in order. */
  function FeedsOf(entries: seq<Entry>): (r: seq<Feed>)
    ensures |r| == |entries|
    ensures forall i :: 0 <= i < |r| ==> r[i] == FeedOf(entries[i])
  {
    if entries == [] then [] else [FeedOf(entries[0])] + FeedsOf(entries[1..])
  }

  /** A payload that reaches `importFeeds` is imported without any entry being skipped. */
  lemma AcceptedFeeds(p: Payload)
    requires Validate(p) == Accepted
    ensures p.ArrayOf?
    ensures forall i :: 0 <= i < |p.entries| ==> Valid(p.entries[i])
    ensures forall i :: 0 <= i < |p.entries| ==> FeedManager.Importable(FeedsOf(p.entries)[i])
  {
    EveryAccepted(p.entries);
  }

  // ---------------------------------------------------------------------------------------
  // The `handleAddFeed` guards

  /** The error `handleAddFeed` reports, or None when the feed is added. */
  function AddFeedError(name: string, url: string, isUrl: string -> bool): (e: Option<string>)
    ensures e == None <==> Text.Trim(name) != "" && Text.Trim(url) != "" && isUrl(url)
    ensures e.Some? ==> e.value == RequiredMessage || e.value == InvalidUrlMessage
    ensures Text.Trim(name) == "" || Text.Trim(url) == "" ==> e == Some(RequiredMessage)
    ensures Text.Trim(name) != "" && Text.Trim(url) != "" && !isUrl(url) ==>
              e == Some(InvalidUrlMessage)
  {
    if Text.Trim(url) == "" || Text.Trim(name) == "" then Some(RequiredMessage)
    else if !isUrl(url) then Some(InvalidUrlMessage)
    else None
  }

  /** A response to the URL import's `fetch`. */
  datatype Response =
    | NetworkError(message: string)
    | Reply(ok: bool, statusText: string, body: Result<Payload, string>)

  // ---------------------------------------------------------------------------------------
  // The dialog's state

  class SettingsForm {
    var newFeedUrl: string
    var newFeedName: string
    var importUrl: string
    var error: string
    const store: FeedManager.FeedStore

    /** The dialog as it opens: every field empty. */
    constructor (store: FeedManager.FeedStore)
      ensures this.store == store
      ensures newFeedUrl == "" && newFeedName == "" && importUrl == "" && error == ""
    {
      this.store := store;
      newFeedUrl := "";
      newFeedName := "";
      importUrl := "";
      error := "";
    }

    /** `handleAddFeed`: a blank (after trimming) name or url, then an unparseable url, is
        reported and nothing is added; otherwise the untrimmed inputs go to `addFeed` and the
        fields and error are cleared. */
    method HandleAddFeed(isUrl: string -> bool)
      requires store.Valid()
      modifies this`newFeedUrl, this`newFeedName, this`error, store`feeds
      ensures store.Valid()
      ensures var e := AddFeedError(old(newFeedName), old(newFeedUrl), isUrl);
              if e.Some? then
                error == e.value && store.feeds == old(store.feeds)
                && newFeedName == old(newFeedName) && newFeedUrl == old(newFeedUrl)
              else
                var feed := Feed(old(newFeedName), old(newFeedUrl));
                store.feeds == (if FeedManager.UrlIndex(old(store.feeds), feed.url) < 0
                                then old(store.feeds) + [feed] else old(store.feeds))
                && newFeedName == "" && newFeedUrl == "" && error == ""
    {
      if Text.Trim(newFeedUrl) == "" || Text.Trim(newFeedName) == "" {
        error := RequiredMessage;
        return;
      }
      if !isUrl(newFeedUrl) {
        error := InvalidUrlMessage;
        return;
      }
      store.AddFeed(Feed(newFeedName, newFeedUrl));
      newFeedName := "";
      newFeedUrl := "";
      error := "";
    }

    /** `processImportedFeeds`: an accepted payload is imported whole and clears the error;
        anything else imports nothing. */
    method ProcessImportedFeeds(parsed: Payload) returns (verdict: Verdict)
      requires store.Valid()
      modifies this`error, store`feeds
      ensures store.Valid()
      ensures verdict == Validate(parsed)
      ensures verdict == Accepted ==>
                parsed.ArrayOf? && (forall i :: 0 <= i < |parsed.entries| ==> Valid(parsed.entries[i]))
                && store.feeds == FeedManager.ImportAll(old(store.feeds), FeedsOf(parsed.entries))
                && error == ""
      ensures verdict != Accepted ==> store.feeds == old(store.feeds) && error == old(error)
    {
      verdict := Validate(parsed);
      if verdict == Accepted {
        AcceptedFeeds(parsed);
        store.ImportFeeds(FeedsOf(parsed.entries));
        error := "";
      }
    }

    /** The synchronous part of `handleFile`: only a JSON file is read. */
    method HandleFile(fileType: string) returns (reading: bool)
      modifies this`error
      ensures reading <==> fileType == JsonType
      ensures reading ==> error == old(error)
      ensures !reading ==> error == NotJsonMessage
    {
      if fileType != JsonType {
        error := NotJsonMessage;
        return false;
      }
      return true;
    }

    /** The reader's `onload`: `parsed` is `JSON.parse` of the file's text, failing with the
        parser's message; `typeError` is the message of the TypeError a `null` element
        raises. */
    method FileLoaded(parsed: Result<Payload, string>, typeError: string)
      requires store.Valid()
      modifies this`error, store`feeds
      ensures store.Valid()
      ensures parsed.Failure? ==> error == parsed.error && store.feeds == old(store.feeds)
      ensures parsed.Success? ==>
                match Validate(parsed.value)
                case Accepted =>
                  error == "" && store.feeds == FeedManager.ImportAll(old(store.feeds), FeedsOf(parsed.value.entries))
                case Rejected => error == InvalidFileMessage && store.feeds == old(store.feeds)
                case Threw => error == typeError && store.feeds == old(store.feeds)
    {
      if parsed.Failure? {
        error := parsed.error;
        return;
      }
      var verdict := ProcessImportedFeeds(parsed.value);
      if verdict == Rejected {
        error := InvalidFileMessage;
      } else if verdict == Threw {
        error := typeError;
      }
    }

    /** `handleImportFromUrl`: nothing happens for an empty url; an unparseable url (whose
        TypeError reads `invalidUrl`), a network error, a non-ok status, an unparseable body
        and a rejected payload each leave the feeds alone and set the error; an accepted
        payload is imported and the import url cleared. */
    method ImportFromUrl(isUrl: string -> bool, invalidUrl: string, response: Response,
                         typeError: string)
      requires store.Valid()
      modifies this`error, this`importUrl, store`feeds
      ensures store.Valid()
      ensures old(importUrl) == "" ==>
                error == old(error) && importUrl == old(importUrl) && store.feeds == old(store.feeds)
      ensures old(importUrl) != "" && !isUrl(old(importUrl)) ==>
                error == invalidUrl && importUrl == old(importUrl) && store.feeds == old(store.feeds)
      ensures old(importUrl) != "" && isUrl(old(importUrl)) ==>
                match response
                case NetworkError(m) =>
                  error == m && importUrl == old(importUrl) && store.feeds == old(store.feeds)
                case Reply(ok, statusText, body) =>
                  if !ok then
                    error == FetchFailedPrefix + statusText && importUrl == old(importUrl)
                    && store.feeds == old(store.feeds)
                  else if body.Failure? then
                    error == body.error && importUrl == old(importUrl) && store.feeds == old(store.feeds)
                  else
                    match Validate(body.value)
                    case Accepted =>
                      error == "" && importUrl == ""
                      && store.feeds == FeedManager.ImportAll(old(store.feeds), FeedsOf(body.value.entries))
                    case Rejected =>
                      error == InvalidUrlImportMessage && importUrl == old(importUrl)
                      && store.feeds == old(store.feeds)
                    case Threw =>
                      error == typeError && importUrl == old(importUrl) && store.feeds == old(store.feeds)
    {
      if importUrl == "" {
        return;
      }
      if !isUrl(importUrl) {
        error := invalidUrl;
        return;
      }
      if response.NetworkError? {
        error := response.message;
        return;
      }
      if !response.ok {
        error := FetchFailedPrefix + response.statusText;
        return;
      }
      if response.body.Failure? {
        error := response.body.error;
        return;
      }
      var verdict := ProcessImportedFeeds(response.body.value);
      if verdict == Rejected {
        error := InvalidUrlImportMessage;
      } else if verdict == Threw {
        error := typeError;
      } else {
        importUrl := "";
      }
    }
  }
}
