/**
 * The page-following loops of main.py: they walk a remote cursor chain and
 * build a list of what the pages hold. The remote service is replaced by the
 * page chain it would hand out; each method also returns how many pages it
 * requested (the first call plus one "next" call per further page).
 */
module Fetching {
  import opened Wrappers
  import opened Pagination

  /** A playlist as the service lists it: its id, its name and its owner's id. */
  datatype Playlist = Playlist(id: string, name: string, ownerId: string)

  /** The playlists, in order, whose owner is `username`; the others are dropped. */
  function Owned(playlists: seq<Playlist>, username: string): seq<Playlist>
  {
    if playlists == [] then []
    else
      var last := playlists[|playlists| - 1];
      Owned(playlists[..|playlists| - 1], username) + (if last.ownerId == username then [last] else [])
  }

  /** The owner filter keeps only playlists owned by `username`, and every one of them. */
  lemma {:induction false} OwnedMembers(playlists: seq<Playlist>, username: string)
    ensures |Owned(playlists, username)| <= |playlists|
    ensures forall p :: p in Owned(playlists, username) ==> p in playlists && p.ownerId == username
    ensures forall p :: p in playlists && p.ownerId == username ==> p in Owned(playlists, username)
  {
    if playlists != [] {
      var init, last := playlists[..|playlists| - 1], playlists[|playlists| - 1];
      assert playlists == init + [last];
      OwnedMembers(init, username);
    }
  }

  lemma OwnedSnoc(playlists: seq<Playlist>, p: Playlist, username: string)
    ensures Owned(playlists + [p], username)
         == Owned(playlists, username) + (if p.ownerId == username then [p] else [])
  {
    assert (playlists + [p])[..|playlists|] == playlists;
  }

  /** Filtering by owner distributes over concatenation: what is kept from a
      later page follows what is kept from an earlier one. */
  lemma {:induction false} OwnedConcat(a: seq<Playlist>, b: seq<Playlist>, username: string)
    ensures Owned(a + b, username) == Owned(a, username) + Owned(b, username)
    decreases |b|
  {
    if b == [] {
      assert a + b == a;
    } else {
      var b', last := b[..|b| - 1], b[|b| - 1];
      assert a + b == (a + b') + [last];
      assert b == b' + [last];
      OwnedSnoc(a + b', last, username);
      OwnedSnoc(b', last, username);
      OwnedConcat(a, b', username);
    }
  }

  /** The positions, in increasing order, of the playlists owned by `username`. */
  function OwnedPositions(playlists: seq<Playlist>, username: string): (r: seq<nat>)
    ensures forall k :: 0 <= k < |r| ==> r[k] < |playlists| && playlists[r[k]].ownerId == username
    ensures forall k, l :: 0 <= k < l < |r| ==> r[k] < r[l]
    ensures forall i :: 0 <= i < |playlists| && playlists[i].ownerId == username ==> i in r
  {
    if playlists == [] then []
    else
      var n := |playlists| - 1;
      OwnedPositions(playlists[..n], username) + (if playlists[n].ownerId == username then [n] else [])
  }

  /** The owner filter keeps exactly the owned playlists, at their positions in
      increasing order: nothing owned is lost and nothing is reordered. */
  lemma {:induction false} OwnedIsSubsequence(playlists: seq<Playlist>, username: string)
    ensures |Owned(playlists, username)| == |OwnedPositions(playlists, username)|
    ensures forall k :: 0 <= k < |Owned(playlists, username)| ==>
      Owned(playlists, username)[k] == playlists[OwnedPositions(playlists, username)[k]]
  {
    if playlists != [] {
      var n := |playlists| - 1;
      OwnedIsSubsequence(playlists[..n], username);
    }
  }

  lemma OwnedStep(before: seq<Playlist>, items: seq<Playlist>, j: nat, username: string)
    requires j < |items|
    ensures Owned(before + items[..j + 1], username)
         == Owned(before + items[..j], username) + (if items[j].ownerId == username then [items[j]] else [])
  {
    assert before + items[..j + 1] == (before + items[..j]) + [items[j]];
    OwnedSnoc(before + items[..j], items[j], username);
  }

  lemma OwnedPage(pages: seq<Page<Playlist>>, k: nat, username: string)
    requires k < |pages|
    ensures Owned(Flatten(pages[..k]) + pages[k].items[..|pages[k].items|], username)
         == Owned(Flatten(pages[..k + 1]), username)
  {
    assert pages[k].items[..|pages[k].items|] == pages[k].items;
    FlattenSnoc(pages, k);
  }

  /** get_user_playlists: walk the listing's pages and keep the playlists
      owned by `username`. */
  method GetUserPlaylists(pages: seq<Page<Playlist>>, username: string)
    returns (finalPlaylists: seq<Playlist>, pagesRead: nat)
    requires Terminates(pages)
    ensures pagesRead == ChainLength(pages)
    ensures finalPlaylists == Owned(Fetched(pages), username)
  {
    finalPlaylists := [];
    var initialPlaylists: Option<Page<Playlist>> := Some(pages[0]);
    pagesRead := 1;
    while initialPlaylists.Some?
      invariant 1 <= pagesRead <= ChainLength(pages)
      invariant initialPlaylists.Some? ==>
        initialPlaylists.value == pages[pagesRead - 1]
        && finalPlaylists == Owned(Flatten(pages[..pagesRead - 1]), username)
      invariant initialPlaylists.None? ==>
        pagesRead == ChainLength(pages)
        && finalPlaylists == Owned(Flatten(pages[..pagesRead]), username)
      decreases |pages| - pagesRead, if initialPlaylists.Some? then 1 else 0
    {
      var page := initialPlaylists.value;
      ghost var before := Flatten(pages[..pagesRead - 1]);
      assert before + page.items[..0] == before;
      for j := 0 to |page.items|
        invariant finalPlaylists == Owned(before + page.items[..j], username)
      {
        OwnedStep(before, page.items, j, username);
        if page.items[j].ownerId == username {
          finalPlaylists := finalPlaylists + [page.items[j]];
        }
      }
      OwnedPage(pages, pagesRead - 1, username);
      if page.hasNext {
        initialPlaylists := Some(pages[pagesRead]);
        pagesRead := pagesRead + 1;
      } else {
        initialPlaylists := None;
      }
    }
  }

  /** get_tracks_from_playlist_helper: copy one page's items. */
  method GetTracksFromPlaylistHelper<T>(results: Page<T>) returns (trackResults: seq<T>)
    ensures trackResults == results.items
  {
    trackResults := [];
    for i := 0 to |results.items|
      invariant trackResults == results.items[..i]
    {
      trackResults := trackResults + [results.items[i]];
    }
  }

  /** get_tracks_from_playlist: every track entry of one playlist, page after page. */
  method GetTracksFromPlaylist<T>(pages: seq<Page<T>>) returns (finalTracks: seq<T>, pagesRead: nat)
    requires Terminates(pages)
    ensures pagesRead == ChainLength(pages)
    ensures finalTracks == Fetched(pages)
  {
    var tempTracks := pages[0];
    pagesRead := 1;
    finalTracks := GetTracksFromPlaylistHelper(tempTracks);
    FlattenSnoc(pages, 0);
    while tempTracks.hasNext
      invariant 1 <= pagesRead <= ChainLength(pages)
      invariant tempTracks == pages[pagesRead - 1]
      invariant finalTracks == Flatten(pages[..pagesRead])
      decreases |pages| - pagesRead
    {
      tempTracks := pages[pagesRead];
      pagesRead := pagesRead + 1;
      var more := GetTracksFromPlaylistHelper(tempTracks);
      FlattenSnoc(pages, pagesRead - 1);
      finalTracks := finalTracks + more;
    }
  }

  /** get_saved_songs: every entry of the user's saved-tracks library, page after page. */
  method GetSavedSongs<T>(pages: seq<Page<T>>) returns (savedSongs: seq<T>, pagesRead: nat)
    requires Terminates(pages)
    ensures pagesRead == ChainLength(pages)
    ensures savedSongs == Fetched(pages)
  {
    var results: Option<Page<T>> := Some(pages[0]);
    savedSongs := [];
    pagesRead := 1;
    while results.Some?
      invariant 1 <= pagesRead <= ChainLength(pages)
      invariant results.Some? ==>
        results.value == pages[pagesRead - 1] && savedSongs == Flatten(pages[..pagesRead - 1])
      invariant results.None? ==>
        pagesRead == ChainLength(pages) && savedSongs == Flatten(pages[..pagesRead])
      decreases |pages| - pagesRead, if results.Some? then 1 else 0
    {
      var page := results.value;
      FlattenSnoc(pages, pagesRead - 1);
      for i := 0 to |page.items|
        invariant savedSongs == Flatten(pages[..pagesRead - 1]) + page.items[..i]
      {
        savedSongs := savedSongs + [page.items[i]];
      }
      if page.hasNext {
        results := Some(pages[pagesRead]);
        pagesRead := pagesRead + 1;
      } else {
        results := None;
      }
    }
  }

  /** Every playlist id the service knows leads to a terminating page chain. */
  predicate WellFormedStore<T>(store: map<string, seq<Page<T>>>)
  {
    forall id :: id in store ==> Terminates(store[id])
  }

  /** The tracks of the given playlists, playlist after playlist. */
  function Consolidated<T>(store: map<string, seq<Page<T>>>, playlistIds: seq<string>): seq<T>
    requires WellFormedStore(store)
    requires forall i :: 0 <= i < |playlistIds| ==> playlistIds[i] in store
  {
    if playlistIds == [] then []
    else
      var n := |playlistIds| - 1;
      Consolidated(store, playlistIds[..n]) + Fetched(store[playlistIds[n]])
  }

  /** Consolidating a concatenation of id lists concatenates the results in the
      same order. */
  lemma {:induction false} ConsolidatedConcat<T>(store: map<string, seq<Page<T>>>, a: seq<string>, b: seq<string>)
    requires WellFormedStore(store)
    requires forall i :: 0 <= i < |a| ==> a[i] in store
    requires forall i :: 0 <= i < |b| ==> b[i] in store
    ensures forall i :: 0 <= i < |a + b| ==> (a + b)[i] in store
    ensures Consolidated(store, a + b) == Consolidated(store, a) + Consolidated(store, b)
    decreases |b|
  {
    if b == [] {
      assert a + b == a;
    } else {
      var b', last := b[..|b| - 1], b[|b| - 1];
      assert (a + b)[..|a + b| - 1] == a + b';
      assert (a + b)[|a + b| - 1] == last;
      ConsolidatedConcat(store, a, b');
      assert Consolidated(store, b) == Consolidated(store, b') + Fetched(store[last]);
    }
  }

  /** get_sorted_tracks: the accumulator holds each requested playlist's tracks
      in the order of `playlistIds`, then the saved songs when `varSavedSongs`
      holds. `varDupDetect` changes nothing: the source stops there, with
      duplicate removal and sorting only as comments. An id the service does not
      know aborts the whole collection. */
  method GetSortedTracks<T>(store: map<string, seq<Page<T>>>, playlistIds: seq<string>,
                            savedPages: seq<Page<T>>, varSavedSongs: bool, varDupDetect: bool)
    returns (r: Result<seq<T>, string>)
    requires WellFormedStore(store)
    requires varSavedSongs ==> Terminates(savedPages)
    ensures r.Failure? <==> exists i :: 0 <= i < |playlistIds| && playlistIds[i] !in store
    ensures r.Failure? ==>
      exists i :: 0 <= i < |playlistIds| && playlistIds[i] == r.error && r.error !in store
                  && forall j :: 0 <= j < i ==> playlistIds[j] in store
    ensures r.Success? ==>
      r.value == Consolidated(store, playlistIds) + (if varSavedSongs then Fetched(savedPages) else [])
  {
    var finalTracks := [];
    for i := 0 to |playlistIds|
      invariant forall j :: 0 <= j < i ==> playlistIds[j] in store
      invariant finalTracks == Consolidated(store, playlistIds[..i])
    {
      if playlistIds[i] !in store {
        return Failure(playlistIds[i]);
      }
      var tracks, _ := GetTracksFromPlaylist(store[playlistIds[i]]);
      assert playlistIds[..i + 1][..i] == playlistIds[..i];
      finalTracks := finalTracks + tracks;
    }
    assert playlistIds[..|playlistIds|] == playlistIds;
    if varSavedSongs {
      var saved, _ := GetSavedSongs(savedPages);
      finalTracks := finalTracks + saved;
    }
    r := Success(finalTracks);
  }
}
