/** The batch-entry, status and settings glue of internal/ui/ui.go.

    `url.ParseRequestURI` is a predicate the caller supplies, the settings store is a map whose
    writes succeed or fail as the caller says, and the downloads themselves run as the
    `Downloader` model runs them. */
module UI {
  import opened Common
  import opened Localization
  import D = Downloader
  import opened DL = DownloadList

  // ---------------------------------------------------------------------------------------
  // Text helpers: strings.Split, strings.TrimSpace, strconv.Atoi
  // ---------------------------------------------------------------------------------------

  /** The pieces joined back with the separator. */
  function Join(parts: seq<string>, sep: char): string
    requires |parts| >= 1
  {
    if |parts| == 1 then parts[0] else parts[0] + [sep] + Join(parts[1..], sep)
  }

  /** The position of the first `sep` in `s`, or `|s|` when there is none. */
  function FirstIndex(s: string, sep: char): (i: nat)
    ensures i <= |s| && sep !in s[..i]
    ensures i < |s| ==> s[i] == sep
  {
    if s == [] || s[0] == sep then 0
    else
      var i := 1 + FirstIndex(s[1..], sep);
      assert s[..i] == [s[0]] + s[1..][..i - 1];
      i
  }

  /** `strings.Split(s, sep)` for a one-character separator: the separator-free pieces between
      the separators, which joined back give `s`. */
  function Split(s: string, sep: char): (parts: seq<string>)
    ensures |parts| >= 1
    ensures forall i :: 0 <= i < |parts| ==> sep !in parts[i]
    ensures Join(parts, sep) == s
    decreases |s|
  {
    var i := FirstIndex(s, sep);
    if i == |s| then
      assert s[..i] == s;
      [s]
    else
      var rest := Split(s[i + 1..], sep);
      assert s == s[..i] + [sep] + s[i + 1..];
      [s[..i]] + rest
  }

  /** Splitting a join of separator-free pieces gives the pieces back. */
  lemma {:induction false} SplitJoin(parts: seq<string>, sep: char)
    requires |parts| >= 1
    requires forall i :: 0 <= i < |parts| ==> sep !in parts[i]
    ensures Split(Join(parts, sep), sep) == parts
    decreases |parts|
  {
    var s := Join(parts, sep);
    FirstIndexOfJoin(parts, sep);
    if |parts| > 1 {
      var n := |parts[0]|;
      assert s[n + 1..] == Join(parts[1..], sep);
      assert s[..n] == parts[0];
      SplitJoin(parts[1..], sep);
      assert parts == [parts[0]] + parts[1..];
    } else {
      assert s[..|s|] == s;
    }
  }

  lemma FirstIndexOfJoin(parts: seq<string>, sep: char)
    requires |parts| >= 1 && sep !in parts[0]
    ensures FirstIndex(Join(parts, sep), sep) == |parts[0]|
  {
    var s := Join(parts, sep);
    assert s[..|parts[0]|] == parts[0];
    FirstIndexIsFirst(s, sep, |parts[0]|);
  }

  lemma {:induction false} FirstIndexIsFirst(s: string, sep: char, n: nat)
    requires n <= |s| && sep !in s[..n] && (n < |s| ==> s[n] == sep)
    ensures FirstIndex(s, sep) == n
  {
    if n > 0 {
      assert s[0] in s[..n];
      assert s[1..][..n - 1] == s[..n][1..];
      FirstIndexIsFirst(s[1..], sep, n - 1);
    }
  }

  /** `unicode.IsSpace`: the white space `strings.TrimSpace` removes. */
  predicate IsSpace(c: char)
  {
    || c == '\t' || c == '\n' || c == '\U{000B}' || c == '\U{000C}' || c == '\r' || c == ' '
    || c == '\U{0085}' || c == '\U{00A0}' || c == '\U{1680}' || ('\U{2000}' <= c <= '\U{200A}')
    || c == '\U{2028}' || c == '\U{2029}' || c == '\U{202F}' || c == '\U{205F}' || c == '\U{3000}'
  }

  /** `s` without its leading white space. */
  function TrimLeft(s: string): string
  {
    if s != [] && IsSpace(s[0]) then TrimLeft(s[1..]) else s
  }

  lemma {:induction false} TrimLeftTrims(s: string)
    ensures var r := TrimLeft(s);
      && |r| <= |s| && r == s[|s| - |r|..]
      && (r != [] ==> !IsSpace(r[0]))
      && forall i :: 0 <= i < |s| - |r| ==> IsSpace(s[i])
  {
    if s != [] && IsSpace(s[0]) {
      TrimLeftTrims(s[1..]);
      var r := TrimLeft(s);
      assert s[1..][|s| - 1 - |r|..] == s[|s| - |r|..];
      forall i | 1 <= i < |s| - |r| ensures IsSpace(s[i]) {
        assert s[i] == s[1..][i - 1];
      }
    }
  }

  /** `s` without its trailing white space. */
  function TrimRight(s: string): string
  {
    if s != [] && IsSpace(s[|s| - 1]) then TrimRight(s[..|s| - 1]) else s
  }

  lemma {:induction false} TrimRightTrims(s: string)
    ensures var r := TrimRight(s);
      && |r| <= |s| && r == s[..|r|]
      && (r != [] ==> !IsSpace(r[|r| - 1]))
      && forall i :: |r| <= i < |s| ==> IsSpace(s[i])
  {
    if s != [] && IsSpace(s[|s| - 1]) {
      TrimRightTrims(s[..|s| - 1]);
      var r := TrimRight(s);
      assert s[..|s| - 1][..|r|] == s[..|r|];
      forall i | |r| <= i < |s| - 1 ensures IsSpace(s[i]) {
        assert s[i] == s[..|s| - 1][i];
      }
    }
  }

  /** `r` is `s` with its first `i` and its last `|s| - i - |r|` characters, all white space,
      removed. */
  predicate TrimmedAt(s: string, r: string, i: int)
  {
    && 0 <= i <= |s| - |r| && r == s[i..i + |r|]
    && (forall k :: 0 <= k < i ==> IsSpace(s[k]))
    && (forall k :: i + |r| <= k < |s| ==> IsSpace(s[k]))
  }

  /** `strings.TrimSpace`: the part of `s` between its leading and trailing white space. */
  function TrimSpace(s: string): string
  {
    TrimRight(TrimLeft(s))
  }

  /** `TrimSpace` removes only white space, and only at the two ends, and leaves none there. */
  lemma TrimSpaceTrims(s: string)
    ensures exists i :: TrimmedAt(s, TrimSpace(s), i)
    ensures var r := TrimSpace(s); r != [] ==> !IsSpace(r[0]) && !IsSpace(r[|r| - 1])
  {
    var l := TrimLeft(s);
    var r := TrimRight(l);
    var i := |s| - |l|;
    TrimLeftTrims(s);
    TrimRightTrims(l);
    assert r == s[i..i + |r|];
    assert forall k :: i + |r| <= k < |s| ==> IsSpace(s[k]) by {
      forall k | i + |r| <= k < |s| ensures IsSpace(s[k]) {
        assert s[k] == l[k - i];
      }
    }
    assert r == TrimSpace(s);
    assert TrimmedAt(s, TrimSpace(s), i);
    if r != [] {
      assert r[0] == l[0];
    }
  }

  /** A string without white space at either end is left as it is. */
  lemma TrimSpaceFixes(t: string)
    requires t != [] ==> !IsSpace(t[0]) && !IsSpace(t[|t| - 1])
    ensures TrimSpace(t) == t
  {
  }

  /** Trimming twice is trimming once. */
  lemma TrimSpaceIdempotent(s: string)
    ensures TrimSpace(TrimSpace(s)) == TrimSpace(s)
  {
    TrimSpaceTrims(s);
    TrimSpaceFixes(TrimSpace(s));
  }

  function DigitValue(c: char): nat
    requires IsDigit(c)
  {
    c as int - '0' as int
  }

  predicate IsDigit(c: char)
  {
    '0' <= c <= '9'
  }

  /** The value of a string of decimal digits. */
  function DecimalValue(digits: string): (v: nat)
    requires forall i :: 0 <= i < |digits| ==> IsDigit(digits[i])
  {
    if digits == [] then 0
    else DecimalValue(digits[..|digits| - 1]) * 10 + DigitValue(digits[|digits| - 1])
  }

  /** `strconv.Atoi` on a 64-bit platform: an optional sign and at least one decimal digit,
      whose value must fit in an int64; anything else is an error (`None`). */
  function Atoi(s: string): (r: Option<int>)
    ensures r.Some? ==> IsInt64(r.value)
  {
    var digits := if s != [] && (s[0] == '+' || s[0] == '-') then s[1..] else s;
    var negative := s != [] && s[0] == '-';
    if digits == [] || exists i :: 0 <= i < |digits| && !IsDigit(digits[i]) then None
    else
      var v: int := if negative then 0 - DecimalValue(digits) else DecimalValue(digits);
      if IsInt64(v) then Some(v) else None
  }

  /** `fmt.Sprintf("%d", n)` for a non-negative n. */
  function FormatNat(n: nat): (s: string)
    ensures s != [] && forall i :: 0 <= i < |s| ==> IsDigit(s[i])
    ensures DecimalValue(s) == n
  {
    var last := ['0' + (n % 10) as char];
    if n < 10 then last
    else
      var s := FormatNat(n / 10) + last;
      assert s[..|s| - 1] == FormatNat(n / 10);
      s
  }

  /** The settings dialog shows `MaxChunks` formatted with %d; saving the untouched text
      parses back to the same number. */
  lemma AtoiFormatNat(n: nat)
    requires n <= Int64Max
    ensures Atoi(FormatNat(n)) == Some(n)
  {
  }

  // ---------------------------------------------------------------------------------------
  // Batch entry
  // ---------------------------------------------------------------------------------------

  /** Every line trimmed. */
  function TrimAll(lines: seq<string>): (trimmed: seq<string>)
    ensures |trimmed| == |lines|
  {
    seq(|lines|, i requires 0 <= i < |lines| => TrimSpace(lines[i]))
  }

  lemma TrimAllSnoc(lines: seq<string>, n: nat)
    requires n < |lines|
    ensures var t := TrimAll(lines[..n + 1]); t[..n] == TrimAll(lines[..n]) && t[n] == TrimSpace(lines[n])
  {
  }

  /** The test a trimmed line passes to be started: non-empty and accepted by the validator. */
  predicate Accepted(line: string, isValid: string -> bool)
  {
    line != [] && isValid(line)
  }

  /** The non-empty lines accepted by the validator, in input order. */
  function KeepValid(lines: seq<string>, isValid: string -> bool): (urls: seq<string>)
  {
    if lines == [] then []
    else
      var line := lines[|lines| - 1];
      KeepValid(lines[..|lines| - 1], isValid) + (if Accepted(line, isValid) then [line] else [])
  }

  /** One more line: it is kept, trimmed, when it is non-empty and accepted. */
  lemma KeepValidSnoc(lines: seq<string>, n: nat, isValid: string -> bool)
    requires n < |lines|
    ensures var line := TrimSpace(lines[n]);
      KeepValid(TrimAll(lines[..n + 1]), isValid)
        == KeepValid(TrimAll(lines[..n]), isValid) + (if Accepted(line, isValid) then [line] else [])
  {
    TrimAllSnoc(lines, n);
    var t := TrimAll(lines[..n + 1]);
    assert t[..|t| - 1] == TrimAll(lines[..n]);
  }

  /** The URLs `downloadMultiple` starts for the text typed in the dialog. */
  function ValidUrls(text: string, isValid: string -> bool): seq<string>
  {
    KeepValid(TrimAll(Split(text, '\n')), isValid)
  }

  /** A line is kept exactly when it is non-empty and the validator accepts it. */
  lemma {:induction false} KeepValidMembers(lines: seq<string>, isValid: string -> bool)
    ensures forall u :: u in KeepValid(lines, isValid) <==> u in lines && u != [] && isValid(u)
    ensures |KeepValid(lines, isValid)| <= |lines|
  {
    if lines != [] {
      KeepValidMembers(lines[..|lines| - 1], isValid);
      assert lines == lines[..|lines| - 1] + [lines[|lines| - 1]];
    }
  }

  /** Every URL started is a trimmed line of the text, non-empty and accepted by the
      validator, and every such line is started. */
  lemma ValidUrlsMembers(text: string, isValid: string -> bool, u: string)
    ensures u in ValidUrls(text, isValid) <==> u != [] && isValid(u) && u in TrimAll(Split(text, '\n'))
  {
    KeepValidMembers(TrimAll(Split(text, '\n')), isValid);
  }

  /** The URLs of a sequence of list items, in order. */
  function Urls(items: seq<Item>): (urls: seq<string>)
    ensures |urls| == |items|
  {
    if items == [] then [] else Urls(items[..|items| - 1]) + [items[|items| - 1].url]
  }

  lemma UrlsSnoc(items: seq<Item>, x: Item)
    ensures Urls(items + [x]) == Urls(items) + [x.url]
  {
    assert (items + [x])[..|items|] == items;
  }

  lemma {:induction false} UrlsAppend(items: seq<Item>, more: seq<Item>)
    ensures Urls(items + more) == Urls(items) + Urls(more)
  {
    if more != [] {
      var init, x := more[..|more| - 1], more[|more| - 1];
      assert more == init + [x];
      assert items + more == (items + init) + [x];
      UrlsAppend(items, init);
      UrlsSnoc(items + init, x);
      UrlsSnoc(init, x);
    } else {
      assert items + more == items;
    }
  }

  lemma {:induction false} UrlsByIndex(items: seq<Item>, urls: seq<string>)
    requires |items| == |urls| && forall i :: 0 <= i < |items| ==> items[i].url == urls[i]
    ensures Urls(items) == urls
  {
    if items != [] {
      var n := |items| - 1;
      UrlsByIndex(items[..n], urls[..n]);
      assert urls == urls[..n] + [urls[n]];
    }
  }

  /** `m` with each item of `items`, in order, entered under its URL. */
  function Enter(m: map<string, Item>, items: seq<Item>): map<string, Item>
  {
    if items == [] then m
    else Enter(m, items[..|items| - 1])[items[|items| - 1].url := items[|items| - 1]]
  }

  lemma EnterSnoc(m: map<string, Item>, items: seq<Item>, x: Item)
    ensures Enter(m, items + [x]) == Enter(m, items)[x.url := x]
  {
    assert (items + [x])[..|items|] == items;
  }

  /** After entering `items`, a URL of theirs maps to one of them; any other URL keeps its
      entry. */
  lemma {:induction false} EnterLookup(m: map<string, Item>, items: seq<Item>, u: string)
    ensures u in Urls(items) ==> u in Enter(m, items) && Enter(m, items)[u] in items
    ensures u !in Urls(items) && u in m ==> u in Enter(m, items) && Enter(m, items)[u] == m[u]
  {
    if items != [] {
      var init, x := items[..|items| - 1], items[|items| - 1];
      assert items == init + [x];
      UrlsSnoc(init, x);
      EnterLookup(m, init, u);
    }
  }

  /** The list after entering the items `added` for the URLs `urls`, one by one: the old
      items are kept in front, the container grows by the new ones, each of the URLs maps to
      one of the new items, and the other URLs keep their entries. */
  lemma BatchEntered(before: seq<Item>, shownBefore: seq<Item>, mapBefore: map<string, Item>,
                     added: seq<Item>, urls: seq<string>,
                     items: seq<Item>, shown: seq<Item>, m: map<string, Item>)
    requires |added| == |urls| && forall i :: 0 <= i < |added| ==> added[i].url == urls[i]
    requires items == before + added && shown == shownBefore + added && m == Enter(mapBefore, added)
    ensures Urls(items) == Urls(before) + urls
    ensures items[..|before|] == before && shown == shownBefore + items[|before|..]
    ensures forall u :: u in urls ==> u in m && m[u] in added
    ensures forall u :: u in mapBefore && u !in urls ==> u in m && m[u] == mapBefore[u]
  {
    UrlsByIndex(added, urls);
    UrlsAppend(before, added);
    assert items[..|before|] == before;
    assert items[|before|..] == added;
    forall u | u in urls || u in mapBefore
      ensures u in urls ==> u in m && m[u] in added
      ensures u in mapBefore && u !in urls ==> u in m && m[u] == mapBefore[u]
    {
      EnterLookup(mapBefore, added, u);
    }
  }

  /** Every download of the batch has returned (none is still in its copy loop). */
  predicate AllReturned(outcomes: seq<D.Outcome>)
  {
    forall i :: 0 <= i < |outcomes| ==> outcomes[i].Returned?
  }

  /** The status a finished download gets in the list. */
  function StatusAfter(o: D.Outcome): string
    requires o.Returned?
  {
    if o.err.None? then Completed else Failed
  }

  /** How many of the downloads returned no error. */
  function Successes(outcomes: seq<D.Outcome>): (n: nat)
    ensures n <= |outcomes|
  {
    if outcomes == [] then 0
    else Successes(outcomes[..|outcomes| - 1]) + (if outcomes[|outcomes| - 1] == D.Returned(None) then 1 else 0)
  }

  /** The status each URL ends with when the results are marked in order: a URL that occurs
      more than once keeps the mark of its last occurrence. */
  function Marks(urls: seq<string>, outcomes: seq<D.Outcome>): (marks: map<string, string>)
    requires |outcomes| == |urls| && AllReturned(outcomes)
    ensures marks.Keys == set u | u in urls
  {
    if urls == [] then map[]
    else
      var n := |urls| - 1;
      Marks(urls[..n], outcomes[..n])[urls[n] := StatusAfter(outcomes[n])]
  }

  /** The last occurrence of a URL decides its mark: "completed" exactly when that download
      returned no error. */
  lemma {:induction false} MarksLastOccurrence(urls: seq<string>, outcomes: seq<D.Outcome>, i: int)
    requires |outcomes| == |urls| && AllReturned(outcomes)
    requires 0 <= i < |urls| && urls[i] !in urls[i + 1..]
    ensures Marks(urls, outcomes)[urls[i]] == (if outcomes[i].err.None? then Completed else Failed)
  {
    var n := |urls| - 1;
    var init, initOutcomes := urls[..n], outcomes[..n];
    assert AllReturned(initOutcomes) by {
      forall j | 0 <= j < |initOutcomes| ensures initOutcomes[j].Returned? {
        assert initOutcomes[j] == outcomes[j];
      }
    }
    assert Marks(urls, outcomes) == Marks(init, initOutcomes)[urls[n] := StatusAfter(outcomes[n])];
    if i < n {
      assert urls[i + 1..] == init[i + 1..] + [urls[n]];
      assert urls[i] != urls[n];
      assert init[i] == urls[i] && initOutcomes[i] == outcomes[i];
      MarksLastOccurrence(init, initOutcomes, i);
    }
  }

  /** Every download succeeded exactly when the count reaches the number of downloads. */
  lemma {:induction false} SuccessesAll(outcomes: seq<D.Outcome>)
    ensures Successes(outcomes) == |outcomes| <==> forall i :: 0 <= i < |outcomes| ==> outcomes[i] == D.Returned(None)
  {
    if outcomes != [] {
      var init := outcomes[..|outcomes| - 1];
      SuccessesAll(init);
      assert forall i :: 0 <= i < |init| ==> init[i] == outcomes[i];
    }
  }

  // ---------------------------------------------------------------------------------------
  // Settings
  // ---------------------------------------------------------------------------------------

  /** The language the select callback switches to for the option text `selected`, compared
      with the labels of the language current at that moment. */
  function SelectedLanguage(selected: string, current: Lang): (lang: Lang)
    ensures lang == English || lang == French || lang == current
    ensures lang != current ==> selected == Translate(current, "english") || selected == Translate(current, "french")
  {
    if selected == Translate(current, "english") then English
    else if selected == Translate(current, "french") then French
    else current
  }

  /** The language code the save callback stores for the option text `selected`. */
  function LangCode(selected: string, current: Lang): (code: string)
    ensures code == "fr" || code == "en"
    ensures code == "fr" <==> selected == Translate(current, "french")
  {
    if selected == Translate(current, "french") then "fr" else "en"
  }

  /** Choosing "French" in an English dialog switches the language at once, so by the time the
      dialog is saved the option text no longer equals the French label of the current
      language: "en" is stored and English is restored. Choosing "Français" in a French dialog
      stores "fr". */
  lemma FrenchChosenInEnglishStoresEnglish()
    ensures SelectedLanguage("French", English) == French
    ensures LangCode("French", French) == "en"
    ensures LangCode("Français", French) == "fr"
  {
    EnglishFrenchLabel();
    FrenchFrenchLabel();
  }

  lemma EnglishFrenchLabel()
    ensures Translate(English, "french") == "French" && Translate(English, "english") == "English"
  {
    TranslateEnglish("french");
    TranslateEnglish("english");
  }

  lemma FrenchFrenchLabel()
    ensures Translate(French, "french") == "Français"
  {
    TranslateFrench("french");
  }

  /** `MaxChunks` after saving the text of the chunks entry: the parsed value when it is a
      positive integer, the old value otherwise. */
  function NewMaxChunks(text: string, current: int): (n: int)
    ensures current >= 1 ==> n >= 1
    ensures n != current ==> Atoi(text) == Some(n) && n > 0
  {
    var parsed := Atoi(text);
    if parsed.Some? && parsed.value > 0 then parsed.value else current
  }

  class UI {
    const downloader: D.Downloader
    const downloadList: DL.DownloadList
    const locale: Locale
    /** The `downloads` map of the UI itself (distinct from the list's). */
    var downloads: map<string, Item>
    /** The settings table of the database. */
    var settings: map<string, string>

    /** `NewUI`: the UI's own map starts empty; the settings table is the database's, with
        whatever earlier runs saved in it. */
    constructor (downloader: D.Downloader, downloadList: DL.DownloadList, locale: Locale, settings: map<string, string>)
      ensures this.downloader == downloader && this.downloadList == downloadList && this.locale == locale
      ensures downloads == map[] && this.settings == settings
    {
      this.downloader := downloader;
      this.downloadList := downloadList;
      this.locale := locale;
      downloads := map[];
      this.settings := settings;
    }

    /** `updateDownloadStatus` of the UI: a URL already in the UI's own map takes the status,
        and "completed" also fills its bar. */
    method UpdateDownloadStatus(url: string, status: string)
      modifies if url in downloads then {downloads[url]} else {}
      ensures url in downloads ==>
        && downloads[url].status == status
        && downloads[url].progress == (if status == Completed then 1.0 else old(downloads[url].progress))
        && downloads[url].button == old(downloads[url].button)
    {
      if url in downloads {
        var item := downloads[url];
        item.status := status;
        if status == Completed {
          item.progress := 1.0;
        }
      }
    }

    /** The callback of the language select: switches to the language whose label, in the
        current language, is the chosen text. */
    method OnLanguageSelected(selected: string)
      modifies locale
      ensures locale.current == SelectedLanguage(selected, old(locale.current))
    {
      if selected == locale.T("english") {
        locale.SetLanguage(English);
      } else if selected == locale.T("french") {
        locale.SetLanguage(French);
      }
    }

    /** The save callback of the settings dialog. The download directory is replaced first and
        written; if that write fails nothing else happens. `MaxChunks` changes only to a
        positive parsed value. The language code is written next, and only once that write
        succeeds is the language switched to it. */
    method SaveSettings(dirText: string, chunksText: string, selected: string,
                        dirWriteFails: bool, langWriteFails: bool)
      modifies downloader`downloadDir, downloader`maxChunks, this`settings, locale
      ensures downloader.downloadDir == dirText
      ensures dirWriteFails ==>
        settings == old(settings) && downloader.maxChunks == old(downloader.maxChunks)
        && locale.current == old(locale.current)
      ensures !dirWriteFails ==> downloader.maxChunks == NewMaxChunks(chunksText, old(downloader.maxChunks))
      ensures !dirWriteFails && langWriteFails ==>
        settings == old(settings)["download_dir" := dirText] && locale.current == old(locale.current)
      ensures !dirWriteFails && !langWriteFails ==>
        var code := LangCode(selected, old(locale.current));
        settings == old(settings)["download_dir" := dirText]["language" := code] && locale.current == Lang(code)
    {
      downloader.downloadDir := dirText;
      if dirWriteFails {
        return;
      }
      settings := settings["download_dir" := dirText];
      var maxChunks := Atoi(chunksText);
      if maxChunks.Some? && maxChunks.value > 0 {
        downloader.maxChunks := maxChunks.value;
      }
      var langCode := LangCode(selected, locale.current);
      if langWriteFails {
        return;
      }
      settings := settings["language" := langCode];
      locale.SetLanguage(Lang(langCode));
    }

    /** The first loop of `downloadMultiple`: every non-empty trimmed line the validator
        accepts is added to the list as "pending", in input order. */
    method AddValidLines(lines: seq<string>, isValid: string -> bool) returns (validUrls: seq<string>)
      requires downloadList.Valid()
      modifies downloadList
      ensures downloadList.Valid()
      ensures validUrls == KeepValid(TrimAll(lines), isValid)
      ensures Urls(downloadList.allDownloads) == Urls(old(downloadList.allDownloads)) + validUrls
      ensures downloadList.allDownloads[..|old(downloadList.allDownloads)|] == old(downloadList.allDownloads)
      ensures downloadList.shown
        == old(downloadList.shown) + downloadList.allDownloads[|old(downloadList.allDownloads)|..]
      ensures forall u :: u in validUrls ==>
        u in downloadList.downloads && fresh(downloadList.downloads[u]) && downloadList.downloads[u].status == Pending
      ensures forall u :: u in old(downloadList.downloads) && u !in validUrls ==>
        u in downloadList.downloads && downloadList.downloads[u] == old(downloadList.downloads[u])
    {
      validUrls := [];
      var n := 0;
      ghost var before, shownBefore, mapBefore := downloadList.allDownloads, downloadList.shown, downloadList.downloads;
      ghost var added: seq<Item> := [];
      while n < |lines|
        invariant 0 <= n <= |lines|
        invariant validUrls == KeepValid(TrimAll(lines[..n]), isValid)
        invariant downloadList.Valid()
        invariant downloadList.allDownloads == before + added
        invariant downloadList.shown == shownBefore + added
        invariant downloadList.downloads == Enter(mapBefore, added)
        invariant |added| == |validUrls| && forall i :: 0 <= i < |added| ==> added[i].url == validUrls[i]
        invariant forall x :: x in added ==> fresh(x) && x.status == Pending
      {
        var line := TrimSpace(lines[n]);
        KeepValidSnoc(lines, n, isValid);
        if Accepted(line, isValid) {
          validUrls := validUrls + [line];
          var item := downloadList.AddDownloadProgressToList(line, Pending);
          EnterSnoc(mapBefore, added, item);
          added := added + [item];
        }
        n := n + 1;
      }
      assert lines[..n] == lines;
      BatchEntered(before, shownBefore, mapBefore, added, validUrls,
                   downloadList.allDownloads, downloadList.shown, downloadList.downloads);
    }

    /** The second loop of `downloadMultiple`: URL i is marked "completed" when its download
        returned no error and "failed" otherwise (a later duplicate of the URL wins), and the
        successes are counted. */
    method MarkResults(validUrls: seq<string>, outcomes: seq<D.Outcome>) returns (successCount: int)
      requires downloadList.Valid() && |outcomes| == |validUrls|
      requires AllReturned(outcomes)
      requires forall u :: u in validUrls ==> u in downloadList.downloads
      modifies set u | u in validUrls && u in downloadList.downloads :: downloadList.downloads[u]
      ensures successCount == Successes(outcomes)
      ensures forall u :: u in validUrls ==> downloadList.downloads[u].status == Marks(validUrls, outcomes)[u]
    {
      successCount := 0;
      var k := 0;
      while k < |outcomes|
        invariant 0 <= k <= |outcomes|
        invariant successCount == Successes(outcomes[..k])
        invariant forall u :: u in Marks(validUrls[..k], outcomes[..k]) ==>
          downloadList.downloads[u].status == Marks(validUrls[..k], outcomes[..k])[u]
      {
        assert outcomes[..k + 1][..k] == outcomes[..k];
        assert validUrls[..k + 1][..k] == validUrls[..k];
        var url := validUrls[k];
        if outcomes[k].err.None? {
          successCount := successCount + 1;
          downloadList.UpdateDownloadStatus(url, Completed);
        } else {
          downloadList.UpdateDownloadStatus(url, Failed);
        }
        k := k + 1;
      }
      assert outcomes[..k] == outcomes;
      assert validUrls[..k] == validUrls;
    }

    /** `downloadMultiple`: the accepted lines are listed as "pending" before anything is
        downloaded; without any, nothing is downloaded. Otherwise the URLs are downloaded as
        one batch, and once every download has returned the results are marked and the
        successes counted. */
    method DownloadMultiple(text: string, isValid: string -> bool, envs: seq<D.Environment>)
      returns (validUrls: seq<string>, outcomes: seq<D.Outcome>, successCount: int)
      requires downloadList.Valid() && downloader.maxChunks >= 1
      requires |envs| == |ValidUrls(text, isValid)|
      requires forall i :: 0 <= i < |envs| ==> D.ValidTicks(envs[i].ticks)
      modifies downloadList, downloader
      ensures downloadList.Valid()
      ensures validUrls == ValidUrls(text, isValid)
      ensures validUrls == [] ==> outcomes == [] && unchanged(downloader)
      ensures Urls(downloadList.allDownloads) == Urls(old(downloadList.allDownloads)) + validUrls
      ensures downloadList.allDownloads[..|old(downloadList.allDownloads)|] == old(downloadList.allDownloads)
      ensures downloadList.shown
        == old(downloadList.shown) + downloadList.allDownloads[|old(downloadList.allDownloads)|..]
      ensures forall u :: u in validUrls ==> u in downloadList.downloads && fresh(downloadList.downloads[u])
      ensures forall u :: u in old(downloadList.downloads) && u !in validUrls ==>
        u in downloadList.downloads && downloadList.downloads[u] == old(downloadList.downloads[u])
      ensures |outcomes| == |validUrls|
      ensures forall i :: 0 <= i < |validUrls| ==>
        outcomes[i] == D.DownloadOutcome(envs[i], validUrls[i] in old(downloader.paused))
      ensures AllReturned(outcomes) ==>
        && successCount == Successes(outcomes)
        && forall u :: u in validUrls ==> downloadList.downloads[u].status == Marks(validUrls, outcomes)[u]
      ensures !AllReturned(outcomes) ==> forall u :: u in validUrls ==> downloadList.downloads[u].status == Pending
      ensures 0 <= successCount <= |validUrls|
    {
      validUrls := AddValidLines(Split(text, '\n'), isValid);
      if validUrls == [] {
        return [], [], 0;
      }
      outcomes := downloader.DownloadMultiple(validUrls, envs);
      successCount := 0;
      if !AllReturned(outcomes) {
        // A download that has not returned keeps `wg.Wait()` blocked: nothing is tallied.
        return;
      }
      successCount := MarkResults(validUrls, outcomes);
    }
  }
}
