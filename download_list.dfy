/** The per-URL list state of internal/ui/download_list.go.

    A `downloadItem` is shared by the `downloads` map and the `allDownloads` slice, so it is a
    class whose `status`, progress value and pause/resume button are updated in place. The
    widget container is the sequence of items it currently shows. */
module DownloadList {
  import opened Common
  import opened Localization
  import D = Downloader

  datatype Icon = PlayIcon | PauseIcon

  /** The pause/resume button: its icon and whether it is shown. */
  datatype Button = Button(icon: Icon, visible: bool)

  /** The status names the list reacts to. */
  const Pending: string := "pending"
  const Downloading: string := "downloading"
  const Paused: string := "paused"
  const Completed: string := "completed"
  const Failed: string := "failed"
  const Deleted: string := "deleted"

  /** The label `deleteDownload` re-filters with; it is no key of the tables. */
  const AllDownloadsLabel: string := "Tous les téléchargements"

  /** `updatePauseResumeButton` on an item with the given status: play for a paused item,
      pause for a running or pending one, hidden once completed, untouched otherwise. */
  function ButtonAfter(status: string, b: Button): (r: Button)
    ensures r != b ==> status in {Paused, Downloading, Pending, Completed}
    ensures r.visible ==> status != Completed
    ensures r.visible && r.icon == PlayIcon ==> status == Paused || r == b
  {
    if status == Paused then Button(PlayIcon, true)
    else if status == Downloading || status == Pending then Button(PauseIcon, true)
    else if status == Completed then b.(visible := false)
    else b
  }

  /** Updating the button twice for the same status is updating it once. */
  lemma ButtonAfterIdempotent(status: string, b: Button)
    ensures ButtonAfter(status, ButtonAfter(status, b)) == ButtonAfter(status, b)
  {
  }

  /** The button offers the opposite action: play on a paused item, pause on a running or
      pending one; a completed item's button is hidden and no other status moves it. */
  lemma ButtonOffersOppositeAction(status: string, b: Button)
    ensures var r := ButtonAfter(status, b);
      && (status == Paused ==> r == Button(PlayIcon, true))
      && (r == Button(PlayIcon, true) ==> status == Paused || b == r)
      && (status == Downloading || status == Pending ==> r == Button(PauseIcon, true))
      && (status == Completed ==> !r.visible && r.icon == b.icon)
      && (status !in {Paused, Downloading, Pending, Completed} ==> r == b)
  {
  }

  /** `strings.ToLower` restricted to ASCII letters. */
  function ToLowerAscii(s: string): (r: string)
    ensures |r| == |s|
    ensures forall i :: 0 <= i < |s| ==> r[i] == if 'A' <= s[i] <= 'Z' then (s[i] as int + 32) as char else s[i]
  {
    if s == [] then [] else
      var c := s[0];
      [if 'A' <= c <= 'Z' then (c as int + 32) as char else c] + ToLowerAscii(s[1..])
  }

  /** `strings.Contains`, by scanning the start positions from the left. */
  function Contains(s: string, sub: string): (r: bool)
    ensures r ==> |sub| <= |s|
    decreases |s|
  {
    (|sub| <= |s| && s[..|sub|] == sub) || (|s| > 0 && Contains(s[1..], sub))
  }

  /** `sub` occurs in `s` starting at position `k`. */
  predicate OccursAt(s: string, sub: string, k: int)
  {
    0 <= k && k + |sub| <= |s| && s[k..k + |sub|] == sub
  }

  /** `Contains` holds exactly when `sub` occurs at some position of `s`. */
  lemma {:induction false} ContainsIff(s: string, sub: string)
    ensures Contains(s, sub) <==> exists k :: OccursAt(s, sub, k)
    decreases |s|
  {
    if |sub| <= |s| && s[..|sub|] == sub {
      assert OccursAt(s, sub, 0);
    }
    if |s| > 0 {
      ContainsIff(s[1..], sub);
      if Contains(s[1..], sub) {
        var k :| OccursAt(s[1..], sub, k);
        assert OccursAt(s, sub, k + 1);
      }
      if exists k :: OccursAt(s, sub, k) {
        var k :| OccursAt(s, sub, k);
        if k > 0 {
          assert OccursAt(s[1..], sub, k - 1);
        }
      }
    }
  }

  /** The empty search term occurs in every URL. */
  lemma EmptyTermMatches(s: string)
    ensures Contains(s, "")
  {
    assert s[..0] == "";
  }

  /** The status condition of the filter switch. The cases are tried in order against the
      labels of the current language; a label matching none of them imposes no condition. */
  function StatusMatches(filter: string, lang: Lang, status: string): (r: bool)
    ensures !r ==> filter in FilterLabels(lang)[1..]
  {
    if filter == Translate(lang, "inProgress") then status == Downloading || status == Pending
    else if filter == Translate(lang, "completed") then status == Completed
    else if filter == Translate(lang, "deleted") then status == Deleted
    else if filter == Translate(lang, "errors") then status == Failed
    else true
  }

  /** Each filter label selects exactly its statuses, whatever the order of the switch cases. */
  lemma FilterLabelSelects(lang: Lang, status: string)
    ensures StatusMatches(Translate(lang, "inProgress"), lang, status) <==> status == Downloading || status == Pending
    ensures StatusMatches(Translate(lang, "completed"), lang, status) <==> status == Completed
    ensures StatusMatches(Translate(lang, "deleted"), lang, status) <==> status == Deleted
    ensures StatusMatches(Translate(lang, "errors"), lang, status) <==> status == Failed
    ensures StatusMatches(Translate(lang, "all"), lang, status)
  {
    FilterLabelsDistinct(lang);
  }

  /** The label used after a delete matches no case, in every language. */
  lemma AllDownloadsLabelMatchesEverything(lang: Lang, status: string)
    ensures StatusMatches(AllDownloadsLabel, lang, status)
  {
    if lang == English {
      EnglishFilterLabels();
    } else if lang == French {
      FrenchFilterLabels();
    } else {
      UntranslatedFilterLabels(lang);
    }
  }

  class Item {
    const url: string
    var status: string
    var progress: real
    var button: Button

    /** A new list entry: empty progress bar, pause icon shown. */
    constructor (url: string, status: string)
      ensures this.url == url && this.status == status && progress == 0.0
      ensures button == Button(PauseIcon, true)
    {
      this.url := url;
      this.status := status;
      progress := 0.0;
      button := Button(PauseIcon, true);
    }
  }

  /** Whether `filterDownloads(term, filter)` shows `item` under language `lang`. */
  predicate Shows(item: Item, term: string, filter: string, lang: Lang)
    reads item
  {
    Contains(ToLowerAscii(item.url), ToLowerAscii(term)) && StatusMatches(filter, lang, item.status)
  }

  /** The items of `items` that the filter shows, in their order. */
  function Filtered(items: seq<Item>, term: string, filter: string, lang: Lang): seq<Item>
    reads items
  {
    if items == [] then []
    else
      var last := items[|items| - 1];
      Filtered(items[..|items| - 1], term, filter, lang) + (if Shows(last, term, filter, lang) then [last] else [])
  }

  lemma FilteredSnoc(items: seq<Item>, i: int, term: string, filter: string, lang: Lang)
    requires 0 <= i < |items|
    ensures Filtered(items[..i + 1], term, filter, lang) ==
      Filtered(items[..i], term, filter, lang) + (if Shows(items[i], term, filter, lang) then [items[i]] else [])
  {
    assert items[..i + 1][..i] == items[..i];
  }

  /** The filter keeps exactly the items it shows, and never more of them than there are. */
  lemma {:induction false} FilteredMembers(items: seq<Item>, term: string, filter: string, lang: Lang)
    ensures forall x :: x in Filtered(items, term, filter, lang) <==> x in items && Shows(x, term, filter, lang)
    ensures |Filtered(items, term, filter, lang)| <= |items|
  {
    if items != [] {
      var init := items[..|items| - 1];
      FilteredMembers(init, term, filter, lang);
      assert items == init + [items[|items| - 1]];
    }
  }

  /** With an empty term and a label of no case, every item is shown again, in order. */
  lemma {:induction false} FilteredEverything(items: seq<Item>, filter: string, lang: Lang)
    requires forall x :: x in items ==> StatusMatches(filter, lang, x.status)
    ensures Filtered(items, "", filter, lang) == items
  {
    if items != [] {
      var init := items[..|items| - 1];
      FilteredEverything(init, filter, lang);
      EmptyTermMatches(ToLowerAscii(items[|items| - 1].url));
      assert items == init + [items[|items| - 1]];
    }
  }

  /** `container.Remove`: drops the first occurrence of `x`. */
  function RemoveFirst(s: seq<Item>, x: Item): (r: seq<Item>)
    ensures x !in s ==> r == s
    ensures x in s ==> |r| == |s| - 1 && multiset(r) == multiset(s) - multiset{x}
  {
    if s == [] then []
    else
      assert s == [s[0]] + s[1..];
      if s[0] == x then s[1..] else [s[0]] + RemoveFirst(s[1..], x)
  }

  class DownloadList {
    var downloads: map<string, Item>
    var allDownloads: seq<Item>
    /** The objects of the widget container, in display order. */
    var shown: seq<Item>

    /** Every mapped item carries its own URL and is one of `allDownloads`. */
    predicate Valid()
      reads this
    {
      forall u :: u in downloads ==> downloads[u].url == u && downloads[u] in allDownloads
    }

    constructor ()
      ensures Valid()
      ensures downloads == map[] && allDownloads == [] && shown == []
    {
      downloads := map[];
      allDownloads := [];
      shown := [];
    }

    /** `addDownloadProgressToList`: a new item is shown, mapped from its URL (replacing any
        earlier entry) and appended to `allDownloads`; its bar is full exactly when it is
        completed. */
    method AddDownloadProgressToList(url: string, status: string) returns (item: Item)
      requires Valid()
      modifies this
      ensures Valid()
      ensures fresh(item) && item.url == url && item.status == status
      ensures item.progress == if status == Completed then 1.0 else 0.0
      ensures item.button == ButtonAfter(status, Button(PauseIcon, true))
      ensures downloads == old(downloads)[url := item]
      ensures allDownloads == old(allDownloads) + [item]
      ensures shown == old(shown) + [item]
    {
      item := new Item(url, status);
      if status == Completed {
        item.progress := 1.0;
      }
      shown := shown + [item];
      downloads := downloads[url := item];
      allDownloads := allDownloads + [item];
      UpdatePauseResumeButton(url);
    }

    /** `updatePauseResumeButton`: sets the button of a listed URL from its status. */
    method UpdatePauseResumeButton(url: string)
      modifies if url in downloads then {downloads[url]} else {}
      ensures url in downloads ==>
        && downloads[url].button == ButtonAfter(downloads[url].status, old(downloads[url].button))
        && downloads[url].status == old(downloads[url].status)
        && downloads[url].progress == old(downloads[url].progress)
    {
      if url in downloads {
        var item := downloads[url];
        item.button := ButtonAfter(item.status, item.button);
      }
    }

    /** `togglePauseResume`: a paused item is resumed and a running or pending one paused;
        the status moves only when the downloader call succeeded, and the button follows
        only then. Other statuses call neither; an unlisted URL changes nothing. */
    method TogglePauseResume(url: string, d: D.Downloader, hook: Option<D.Error>) returns (err: Option<D.Error>)
      modifies d`paused, d`trace, if url in downloads then {downloads[url]} else {}
      ensures url !in downloads ==> err == None && d.paused == old(d.paused) && d.trace == old(d.trace)
      ensures url in downloads && old(downloads[url].status) == Paused ==>
        && err == hook
        && d.paused == old(d.paused) - {url}
        && d.trace == old(d.trace) + [D.Resumed(url)] + (if hook.None? then [D.Relaunched(url)] else [])
        && downloads[url].status == if hook.None? then Downloading else Paused
      ensures url in downloads && old(downloads[url].status) in {Downloading, Pending} ==>
        && err == hook
        && d.paused == old(d.paused) + {url}
        && d.trace == old(d.trace) + [D.Paused(url)]
        && downloads[url].status == if hook.None? then Paused else old(downloads[url].status)
      ensures url in downloads && old(downloads[url].status) !in {Paused, Downloading, Pending} ==>
        && err == None
        && d.paused == old(d.paused) && d.trace == old(d.trace)
        && downloads[url].status == old(downloads[url].status)
      ensures url in downloads ==>
        && downloads[url].progress == old(downloads[url].progress)
        && downloads[url].button ==
          if err.None? then ButtonAfter(downloads[url].status, old(downloads[url].button))
          else old(downloads[url].button)
    {
      err := None;
      if url in downloads {
        var item := downloads[url];
        if item.status == Paused {
          err := d.ResumeDownload(url, hook);
          if err.None? {
            item.status := Downloading;
          }
        } else if item.status == Downloading || item.status == Pending {
          err := d.PauseDownload(url, hook);
          if err.None? {
            item.status := Paused;
          }
        }
        if err.None? {
          UpdatePauseResumeButton(url);
        }
      }
    }

    /** The status part of `updateProgress`: a listed item that is not paused takes the new
        value, and a value of at least 1 completes it (hiding its button). */
    method UpdateProgress(url: string, progress: real)
      modifies if url in downloads then {downloads[url]} else {}
      ensures url in downloads && old(downloads[url].status) != Paused ==>
        && downloads[url].progress == progress
        && downloads[url].status == (if progress >= 1.0 then Completed else old(downloads[url].status))
        && downloads[url].button ==
          if progress >= 1.0 then ButtonAfter(Completed, old(downloads[url].button)) else old(downloads[url].button)
      ensures url in downloads && old(downloads[url].status) == Paused ==> unchanged(downloads[url])
    {
      if url in downloads {
        var item := downloads[url];
        if item.status != Paused {
          item.progress := progress;
          if progress >= 1.0 {
            item.status := Completed;
            UpdatePauseResumeButton(url);
          }
        }
      }
    }

    /** `updateDownloadStatus`: a listed item takes the status; "completed" also fills its
        bar. The button is not updated. */
    method UpdateDownloadStatus(url: string, status: string)
      modifies if url in downloads then {downloads[url]} else {}
      ensures url in downloads ==>
        && downloads[url].status == status
        && downloads[url].progress == (if status == Completed then 1.0 else old(downloads[url].progress))
        && downloads[url].button == old(downloads[url].button)
    {
      if url in downloads {
        var item := downloads[url];
        item.status := status;
        if status == Completed {
          item.progress := 1.0;
        }
      }
    }

    /** `filterDownloads`: the container is rebuilt from `allDownloads`, in order, keeping
        the items whose lower-cased URL contains the lower-cased term and whose status the
        filter label admits. */
    method FilterDownloads(searchTerm: string, filter: string, locale: Locale)
      modifies this`shown
      ensures shown == Filtered(allDownloads, searchTerm, filter, locale.current)
    {
      shown := [];
      var term := ToLowerAscii(searchTerm);
      // The case labels of the switch, in the current language.
      var inProgress, completed, deleted, errors :=
        locale.T("inProgress"), locale.T("completed"), locale.T("deleted"), locale.T("errors");
      var i := 0;
      while i < |allDownloads|
        invariant 0 <= i <= |allDownloads|
        invariant shown == Filtered(allDownloads[..i], searchTerm, filter, locale.current)
      {
        var item := allDownloads[i];
        var showItem := Contains(ToLowerAscii(item.url), term);
        if filter == inProgress {
          showItem := showItem && (item.status == Downloading || item.status == Pending);
        } else if filter == completed {
          showItem := showItem && item.status == Completed;
        } else if filter == deleted {
          showItem := showItem && item.status == Deleted;
        } else if filter == errors {
          showItem := showItem && item.status == Failed;
        }
        assert showItem == Shows(item, searchTerm, filter, locale.current);
        FilteredSnoc(allDownloads, i, searchTerm, filter, locale.current);
        if showItem {
          shown := shown + [item];
        }
        i := i + 1;
      }
      assert allDownloads[..i] == allDownloads;
    }

    /** The confirm callback of `deleteDownload`: when `SetDownloadStatusDeleted` fails nothing
        changes; otherwise a listed item becomes "deleted" and every item of `allDownloads`
        is shown again. */
    method ConfirmDelete(url: string, shouldDelete: bool, d: D.Downloader, hook: Option<D.Error>, locale: Locale)
      returns (err: Option<D.Error>)
      modifies this`shown, d`trace, if url in downloads then {downloads[url]} else {}
      ensures !shouldDelete ==> err == None && unchanged(this) && d.trace == old(d.trace)
      ensures shouldDelete ==> err == hook && d.trace == old(d.trace) + [D.Deleted(url, false)]
      ensures shouldDelete && hook.Some? ==> unchanged(this)
      ensures url in downloads && !(shouldDelete && hook.None?) ==> unchanged(downloads[url])
      ensures shouldDelete && hook.None? ==>
        && shown == allDownloads
        && (url in downloads ==> downloads[url].status == Deleted && downloads[url].button == old(downloads[url].button))
    {
      err := None;
      if !shouldDelete {
        return;
      }
      err := d.SetDownloadStatusDeleted(url, hook);
      if err.Some? {
        return;
      }
      if url in downloads {
        downloads[url].status := Deleted;
        UpdatePauseResumeButton(url);
      }
      FilterDownloads("", AllDownloadsLabel, locale);
      forall x | x in allDownloads
        ensures StatusMatches(AllDownloadsLabel, locale.current, x.status)
      {
        AllDownloadsLabelMatchesEverything(locale.current, x.status);
      }
      FilteredEverything(allDownloads, AllDownloadsLabel, locale.current);
    }

    /** `removeDownloadFromList`: a listed URL leaves the map and the container but stays in
        `allDownloads`, so a later filter can show it again. */
    method RemoveDownloadFromList(url: string)
      requires Valid()
      modifies this`downloads, this`shown
      ensures Valid()
      ensures downloads == old(downloads) - {url}
      ensures allDownloads == old(allDownloads)
      ensures shown == if url in old(downloads) then RemoveFirst(old(shown), old(downloads[url])) else old(shown)
    {
      if url in downloads {
        shown := RemoveFirst(shown, downloads[url]);
        downloads := downloads - {url};
      }
    }
  }

  /** After a removal the item is still one of `allDownloads`, so it is found again by any
      filter that shows it. */
  lemma RemovedItemCanReappear(items: seq<Item>, x: Item, term: string, filter: string, lang: Lang)
    requires x in items && Shows(x, term, filter, lang)
    ensures x in Filtered(items, term, filter, lang)
  {
    FilteredMembers(items, term, filter, lang);
  }
}
