/** The history of a page manager: what each page was last recorded for. This is the reference against which the answers
    of a query are judged. */
module PageHistory {
  import opened Wrappers
  import opened PageTrie

  /** The tokens of one page and the extra key (media and position identity) that goes with them. */
  datatype PageKey = PageKey(tokens: seq<int>, extra: string)

  type PageHash = (seq<int>, string) -> nat

  datatype Event =
    | Recorded(page: int, prefix: seq<PageKey>)  // the page was recorded as the last page of this prefix
    | HandedOut(page: int)                       // the page was given to a caller to be overwritten
    | Reset                                      // the manager was resized and forgot everything

  /** The prefix that the page was last recorded for, unless the page was handed out after that. */
  function LastRecorded(log: seq<Event>, page: int): Option<seq<PageKey>> {
    if log == [] then None
    else
      match log[|log| - 1]
      case Recorded(p, prefix) => if p == page then Some(prefix) else LastRecorded(log[..|log| - 1], page)
      case HandedOut(p) => if p == page then None else LastRecorded(log[..|log| - 1], page)
      case Reset => None
  }

  /** Event i records the page for the prefix, and no later event is about the page or the whole manager. */
  ghost predicate IsLastRecord(log: seq<Event>, i: nat, page: int, prefix: seq<PageKey>) {
    && i < |log| && log[i] == Recorded(page, prefix)
    && forall j :: i < j < |log| ==> log[j] != Reset && log[j].page != page
  }

  lemma {:induction false} LastRecordedMeans(log: seq<Event>, page: int, prefix: seq<PageKey>)
    ensures LastRecorded(log, page) == Some(prefix) <==> exists i :: IsLastRecord(log, i, page, prefix)
  {
    if log != [] {
      var last := |log| - 1;
      var init := log[..last];
      LastRecordedMeans(init, page, prefix);
      if log[last] != Reset && log[last].page != page {
        forall i ensures IsLastRecord(log, i, page, prefix) <==> IsLastRecord(init, i, page, prefix) {
        }
      } else if log[last] == Recorded(page, prefix) {
        assert IsLastRecord(log, last, page, prefix);
      }
    }
  }

  function EdgeOf(hash: PageHash, k: PageKey): Edge {
    Edge(hash(k.tokens, k.extra), k.extra)
  }

  function Edges(hash: PageHash, keys: seq<PageKey>): Path {
    seq(|keys|, i requires 0 <= i < |keys| => EdgeOf(hash, keys[i]))
  }

  lemma EdgesPrefix(hash: PageHash, keys: seq<PageKey>, i: nat)
    requires i < |keys|
    ensures Edges(hash, keys[..i + 1]) == Edges(hash, keys)[..i + 1] == Edges(hash, keys)[..i] + [EdgeOf(hash, keys[i])]
  {
  }

  /** The events of a recording that wrote the first k pages. */
  function RecordedEvents(keys: seq<PageKey>, pages: seq<int>, k: nat): seq<Event>
    requires k <= |keys| && k <= |pages|
  {
    if k == 0 then [] else RecordedEvents(keys, pages, k - 1) + [Recorded(pages[k - 1], keys[..k])]
  }

  /** The timestamps after a recording wrote the first k pages. */
  function Stamped(stamps: seq<int>, pages: seq<int>, k: nat, ts: int): (r: seq<int>)
    requires k <= |pages|
    ensures |r| == |stamps|
  {
    seq(|stamps|, p requires 0 <= p < |stamps| => if p in pages[..k] then ts else stamps[p])
  }

  lemma StampedNone(stamps: seq<int>, pages: seq<int>, ts: int)
    ensures Stamped(stamps, pages, 0, ts) == stamps
  {
  }

  lemma StampedStep(stamps: seq<int>, pages: seq<int>, k: nat, ts: int)
    requires k < |pages| && 0 <= pages[k] < |stamps|
    ensures Stamped(stamps, pages, k + 1, ts) == Stamped(stamps, pages, k, ts)[pages[k] := ts]
  {
    assert pages[..k + 1] == pages[..k] + [pages[k]];
  }
}
