/** Which mails a run asks for and gets to see, told without the paging loop
    (tools/cmd/paperless-mail-export/main.go). */
module ExportListing {
  import opened MailExport

  /** An incremental run asks for whole days, from the day on in which the overlap before
      the watermark begins. A sweep, and a run without a watermark, ask for everything. */
  lemma WindowTold(overlap: nat, watermark: nat)
    ensures WindowStart(false, overlap, watermark) == 0 && WindowStart(true, overlap, 0) == 0
    ensures var start := WindowStart(true, overlap, watermark);
      watermark > 0 ==> start % 86400 == 0 && start <= watermark - overlap < start + 86400
  {
    var from := watermark - overlap;
    assert from - from % 86400 == 86400 * (from / 86400);
  }

  predicate IsPage(replies: seq<Reply>, k: nat) {
    1 <= k <= |replies| && replies[k - 1].Page?
  }

  /** The server says that page k is the last, or it is empty. */
  predicate Ends(replies: seq<Reply>, k: nat) {
    IsPage(replies, k) && (replies[k - 1].items == [] || k >= replies[k - 1].totalPages)
  }

  /** The mails of the first k pages. */
  function Upto(replies: seq<Reply>, k: nat): seq<Item>
    requires k <= |replies|
  {
    if k == 0 then [] else Upto(replies, k - 1) + if replies[k - 1].Page? then replies[k - 1].items else []
  }

  /** The first k pages come, none before the last of them ends the list; then it does, or
      there is no reply to the next request but an error. */
  ghost predicate StopsAfter(replies: seq<Reply>, k: nat, complete: bool) {
    && k <= |replies|
    && (forall j :: 1 <= j <= k ==> IsPage(replies, j))
    && (forall j :: 1 <= j < k ==> !Ends(replies, j))
    && if complete then k > 0 && Ends(replies, k)
       else !Ends(replies, k) && (k == |replies| || replies[k].ListError?)
  }

  lemma {:induction false} ListedFrom(replies: seq<Reply>, pg: nat) returns (k: nat)
    requires 1 <= pg <= |replies| + 1
    requires forall j :: 1 <= j < pg ==> IsPage(replies, j) && !Ends(replies, j)
    ensures StopsAfter(replies, k, Listed(replies, pg).1)
    ensures Upto(replies, pg - 1) + Listed(replies, pg).0 == Upto(replies, k)
    decreases |replies| + 1 - pg
  {
    if pg > |replies| || replies[pg - 1].ListError? {
      k := pg - 1;
    } else if Ends(replies, pg) {
      k := pg;
    } else {
      k := ListedFrom(replies, pg + 1);
      var page, rest := replies[pg - 1].items, Listed(replies, pg + 1).0;
      assert Upto(replies, pg - 1) + (page + rest) == (Upto(replies, pg - 1) + page) + rest;
    }
  }

  /** A run is shown the mails of the pages up to the first that ends the list, or else
      up to the first error, and knows which it was. */
  lemma ListedTold(replies: seq<Reply>) returns (k: nat)
    ensures StopsAfter(replies, k, Listed(replies, 1).1) && Listed(replies, 1).0 == Upto(replies, k)
  {
    k := ListedFrom(replies, 1);
    assert [] + Listed(replies, 1).0 == Listed(replies, 1).0;
  }

  /** Only one place and one outcome fit. */
  lemma StopsOnce(replies: seq<Reply>, k: nat, c: bool, m: nat, d: bool)
    requires StopsAfter(replies, k, c) && StopsAfter(replies, m, d)
    ensures k == m && c == d
  {
    assert IsPage(replies, k + 1) ==> replies[k].Page?;
    assert IsPage(replies, m + 1) ==> replies[m].Page?;
  }
}
