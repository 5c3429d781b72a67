/**
 * The catalog (`listedFiles`) as a value, and the update each catalog event
 * makes to it. The handlers in `Store` and `Connection` are proved to leave
 * `listedFiles` equal to these functions of its old value.
 */
module Catalog {
  import opened Wrappers
  import opened Seqs
  import opened Protocol

  /** `a` and `b` advertise the same thing: they agree on every field but the local overlay and `isOwner`. */
  predicate SameListing(a: Entry, b: Entry)
  {
    && a.id == b.id && a.ownerId == b.ownerId && a.deviceName == b.deviceName
    && a.fileName == b.fileName && a.fileSize == b.fileSize && a.fileType == b.fileType
    && a.file == b.file && a.chunks == b.chunks && a.withPassword == b.withPassword
    && a.totalDownloads == b.totalDownloads
  }

  /** The download overlay is at its initial value: 0 %, not downloading, not completed. */
  predicate OverlayReset(e: Entry)
  {
    e.downloadPercent == 0 && !e.isDownloading && !e.downloadCompleted
  }

  /** An entry received from the relay, as the peer stores it: a non-owner copy with the overlay reset. */
  function Mirror(e: Entry): (r: Entry)
    ensures SameListing(r, e) && OverlayReset(r) && !r.isOwner
  {
    e.(downloadCompleted := false, downloadPercent := 0, isDownloading := false, isOwner := false)
  }

  /** Whatever overlay and ownership the sender transmitted, the stored copy is the same. */
  lemma MirrorIgnoresSenderOverlay(a: Entry, b: Entry)
    requires SameListing(a, b)
    ensures Mirror(a) == Mirror(b)
  {
  }

  /**
   * The catalog after a `request-listed-files` reply: a non-empty array is
   * appended in order as mirrors; a missing, non-array or empty payload changes nothing.
   */
  function ListBatch(L: seq<Entry>, payload: Option<seq<Entry>>): (r: seq<Entry>)
    ensures payload.None? || payload.value == [] ==> r == L
    ensures payload.Some? ==> |r| == |L| + |payload.value|
    ensures |r| >= |L| && r[..|L|] == L
    ensures payload.Some? ==> forall i :: 0 <= i < |payload.value| ==> r[|L| + i] == Mirror(payload.value[i])
  {
    match payload
    case None => L
    case Some(batch) => L + seq(|batch|, i requires 0 <= i < |batch| => Mirror(batch[i]))
  }

  /** The catalog without the entries of owner `ownerId`, the others kept in order. */
  function WithoutOwner(L: seq<Entry>, ownerId: string): (r: seq<Entry>)
    ensures forall e :: e in r <==> e in L && e.ownerId != ownerId
    ensures forall e :: multiset(r)[e] == if e.ownerId != ownerId then multiset(L)[e] else 0
    ensures IsSubsequence(r, L)
  {
    var keep := (e: Entry) => e.ownerId != ownerId;
    FilterKeepsOrder(L, keep);
    forall e ensures multiset(Filter(L, keep))[e] == if keep(e) then multiset(L)[e] else 0 {
      FilterMultiplicity(L, keep, e);
    }
    Filter(L, keep)
  }

  /** The catalog without the entries whose content id is `fileId`, whatever their owner. */
  function WithoutFile(L: seq<Entry>, fileId: string): (r: seq<Entry>)
    ensures forall e :: e in r <==> e in L && e.id != fileId
    ensures forall e :: multiset(r)[e] == if e.id != fileId then multiset(L)[e] else 0
    ensures IsSubsequence(r, L)
  {
    var keep := (e: Entry) => e.id != fileId;
    FilterKeepsOrder(L, keep);
    forall e ensures multiset(Filter(L, keep))[e] == if keep(e) then multiset(L)[e] else 0 {
      FilterMultiplicity(L, keep, e);
    }
    Filter(L, keep)
  }

  /** Deleting the same file a second time changes nothing. */
  lemma {:induction false} WithoutFileIdempotent(L: seq<Entry>, fileId: string)
    ensures WithoutFile(WithoutFile(L, fileId), fileId) == WithoutFile(L, fileId)
  {
    var r := WithoutFile(L, fileId);
    FilterAll(r, (e: Entry) => e.id != fileId);
  }

  /** The first entry with content id `fileId` that this peer owns (the download-file lookup). */
  function FirstOwned(L: seq<Entry>, fileId: string): (r: Option<nat>)
    ensures r.None? <==> forall i :: 0 <= i < |L| ==> !(L[i].id == fileId && L[i].isOwner)
    ensures r.Some? ==> r.value < |L| && L[r.value].id == fileId && L[r.value].isOwner
    ensures r.Some? ==> forall i :: 0 <= i < r.value ==> !(L[i].id == fileId && L[i].isOwner)
  {
    FindFirst(L, (e: Entry) => e.id == fileId && e.isOwner)
  }

  /** The first entry with content id `fileId`, whoever owns it (the request-file-chunk lookup). */
  function FirstWithId(L: seq<Entry>, fileId: string): (r: Option<nat>)
    ensures r.None? <==> forall i :: 0 <= i < |L| ==> L[i].id != fileId
    ensures r.Some? ==> r.value < |L| && L[r.value].id == fileId
    ensures r.Some? ==> forall i :: 0 <= i < r.value ==> L[i].id != fileId
  {
    FindFirst(L, (e: Entry) => e.id == fileId)
  }

  /** The last entry with content id `fileId`. */
  function LastWithId(L: seq<Entry>, fileId: string): (r: Option<nat>)
    ensures r.None? <==> forall i :: 0 <= i < |L| ==> L[i].id != fileId
    ensures r.Some? ==> r.value < |L| && L[r.value].id == fileId
    ensures r.Some? ==> forall i :: r.value < i < |L| ==> L[i].id != fileId
  {
    FindLast(L, (e: Entry) => e.id == fileId)
  }

  /** When the first entry with the id is an owned one, both lookups pick the same entry. */
  lemma LookupsAgree(L: seq<Entry>, fileId: string, i: nat)
    requires FirstWithId(L, fileId) == Some(i) && L[i].isOwner
    ensures FirstOwned(L, fileId) == Some(i)
  {
  }

  /** `e` is the entry of owner `ownerId` for content `fileId`. */
  predicate Keyed(e: Entry, fileId: string, ownerId: string)
  {
    e.id == fileId && e.ownerId == ownerId
  }

  /** `withPassword := flag` on the entries keyed by (`fileId`, `ownerId`); nothing else changes. */
  function SetPassword(L: seq<Entry>, fileId: string, ownerId: string, flag: bool): (r: seq<Entry>)
    ensures |r| == |L|
    ensures forall i :: 0 <= i < |L| ==>
      r[i].withPassword == (if Keyed(L[i], fileId, ownerId) then flag else L[i].withPassword)
    ensures forall i :: 0 <= i < |L| ==> r[i] == L[i].(withPassword := r[i].withPassword)
  {
    seq(|L|, i requires 0 <= i < |L| => if Keyed(L[i], fileId, ownerId) then L[i].(withPassword := flag) else L[i])
  }

  /** Applying a password event twice is the same as applying it once. */
  lemma SetPasswordIdempotent(L: seq<Entry>, fileId: string, ownerId: string, flag: bool)
    ensures SetPassword(SetPassword(L, fileId, ownerId, flag), fileId, ownerId, flag)
         == SetPassword(L, fileId, ownerId, flag)
  {
  }

  /** Of two password events for the same pair, the later decides. */
  lemma SetPasswordLastWins(L: seq<Entry>, fileId: string, ownerId: string, first: bool, second: bool)
    ensures SetPassword(SetPassword(L, fileId, ownerId, first), fileId, ownerId, second)
         == SetPassword(L, fileId, ownerId, second)
  {
    var a := SetPassword(SetPassword(L, fileId, ownerId, first), fileId, ownerId, second);
    var b := SetPassword(L, fileId, ownerId, second);
    assert forall i :: 0 <= i < |L| ==> a[i] == b[i];
  }

  /** A password event for a pair no entry carries is a no-op: it never fabricates an entry. */
  lemma SetPasswordUnknownNoop(L: seq<Entry>, fileId: string, ownerId: string, flag: bool)
    requires forall i :: 0 <= i < |L| ==> !Keyed(L[i], fileId, ownerId)
    ensures SetPassword(L, fileId, ownerId, flag) == L
  {
  }

  /** `deviceName := name` on every entry of owner `ownerId`; nothing else changes. */
  function RenameDevice(L: seq<Entry>, ownerId: string, name: string): (r: seq<Entry>)
    ensures |r| == |L|
    ensures forall i :: 0 <= i < |L| ==>
      r[i].deviceName == (if L[i].ownerId == ownerId then name else L[i].deviceName)
    ensures forall i :: 0 <= i < |L| ==> r[i] == L[i].(deviceName := r[i].deviceName)
  {
    seq(|L|, i requires 0 <= i < |L| => if L[i].ownerId == ownerId then L[i].(deviceName := name) else L[i])
  }

  /** `totalDownloads := n` on every entry with content id `fileId`, across all owners. */
  function SetTotalDownloads(L: seq<Entry>, fileId: string, n: int): (r: seq<Entry>)
    ensures |r| == |L|
    ensures forall i :: 0 <= i < |L| ==>
      r[i].totalDownloads == (if L[i].id == fileId then n else L[i].totalDownloads)
    ensures forall i :: 0 <= i < |L| ==> r[i] == L[i].(totalDownloads := r[i].totalDownloads)
  {
    seq(|L|, i requires 0 <= i < |L| => if L[i].id == fileId then L[i].(totalDownloads := n) else L[i])
  }

  /** The whole overlay of every entry with content id `fileId` set to the given values. */
  function SetOverlay(L: seq<Entry>, fileId: string, percent: int, downloading: bool, completed: bool): (r: seq<Entry>)
    ensures |r| == |L|
    ensures forall i :: 0 <= i < |L| && L[i].id == fileId ==>
      r[i].downloadPercent == percent && r[i].isDownloading == downloading && r[i].downloadCompleted == completed
    ensures forall i :: 0 <= i < |L| && L[i].id != fileId ==> r[i] == L[i]
    ensures forall i :: 0 <= i < |L| ==> SameListing(r[i], L[i]) && r[i].isOwner == L[i].isOwner
  {
    seq(|L|, i requires 0 <= i < |L| =>
      if L[i].id == fileId
      then L[i].(downloadCompleted := completed, downloadPercent := percent, isDownloading := downloading)
      else L[i])
  }

  /** Only the progress of every entry with content id `fileId` set to `percent`. */
  function SetPercent(L: seq<Entry>, fileId: string, percent: int): (r: seq<Entry>)
    ensures |r| == |L|
    ensures forall i :: 0 <= i < |L| ==>
      r[i].downloadPercent == (if L[i].id == fileId then percent else L[i].downloadPercent)
    ensures forall i :: 0 <= i < |L| ==> r[i] == L[i].(downloadPercent := r[i].downloadPercent)
  {
    seq(|L|, i requires 0 <= i < |L| => if L[i].id == fileId then L[i].(downloadPercent := percent) else L[i])
  }

  /** Of two overlay updates for the same file, the later decides. */
  lemma OverlayLastWins(L: seq<Entry>, fileId: string, p1: int, d1: bool, c1: bool, p2: int, d2: bool, c2: bool)
    ensures SetOverlay(SetOverlay(L, fileId, p1, d1, c1), fileId, p2, d2, c2) == SetOverlay(L, fileId, p2, d2, c2)
  {
    var a := SetOverlay(SetOverlay(L, fileId, p1, d1, c1), fileId, p2, d2, c2);
    var b := SetOverlay(L, fileId, p2, d2, c2);
    assert forall i :: 0 <= i < |L| ==> a[i] == b[i];
  }

  /** A progress update after an overlay update only moves the percentage. */
  lemma PercentAfterOverlay(L: seq<Entry>, fileId: string, p1: int, d: bool, c: bool, p2: int)
    ensures SetPercent(SetOverlay(L, fileId, p1, d, c), fileId, p2) == SetOverlay(L, fileId, p2, d, c)
  {
    var a := SetPercent(SetOverlay(L, fileId, p1, d, c), fileId, p2);
    var b := SetOverlay(L, fileId, p2, d, c);
    assert forall i :: 0 <= i < |L| ==> a[i] == b[i];
  }
}
