/** Qt Assistant's help viewer: the back/forward history, the font zoom,
    the MIME type guessed from a URL's file suffix and the test for URLs
    the viewer shows itself. Texts here are strings of characters. */
module HelpViewer {
  import opened Wrappers

  /** kMaxHistoryItems: how many pages a new navigation keeps behind. */
  const MAX_HISTORY_ITEMS: nat := 20

  const MIN_ZOOM: int := 10
  const MAX_ZOOM: int := 300
  const DEFAULT_ZOOM: int := 100
  /** One zoom step is ten percent. */
  const ZOOM_STEP: int := 10
  /** The angle delta of one wheel notch. */
  const WHEEL_NOTCH: int := 120

  /** The parts of a QUrl the viewer looks at. */
  datatype Url = Url(scheme: string, path: string, valid: bool)

  /** The URL of a viewer that has shown nothing yet: QUrl() is not valid. */
  const NO_URL := Url("", "", false)

  /** HelpViewerPrivate::HistoryItem. */
  datatype HistoryItem = HistoryItem(url: Url, title: string, vscroll: int)

  const NO_PAGE := HistoryItem(NO_URL, "", 0)

  // ---------------------------------------------------------------------
  // History

  /** The pages behind and ahead of the current one, and the current one. */
  datatype History = History(back: seq<HistoryItem>, forward: seq<HistoryItem>, current: HistoryItem)
  {
    /** isBackwardAvailable / isForwardAvailable. */
    predicate BackwardAvailable() { back != [] }
    predicate ForwardAvailable() { forward != [] }
  }

  /** The last `n` items of `s` (all of them when there are fewer). */
  function Newest(s: seq<HistoryItem>, n: nat): seq<HistoryItem> {
    if |s| <= n then s else s[|s| - n..]
  }

  /** doSetSource: unless the URL went to an external application, the
      forward list is emptied, the current page is pushed behind (only when
      its URL is valid) keeping the newest twenty, and `page` is shown. */
  function SetSource(h: History, launched: bool, page: HistoryItem): (r: History)
    ensures launched ==> r == h
    ensures !launched ==> r.current == page && !r.ForwardAvailable()
  {
    if launched then h
    else History(if h.current.url.valid then Newest(h.back + [h.current], MAX_HISTORY_ITEMS) else h.back,
                 [], page)
  }

  /** backward: the current page goes to the front of the forward list and
      the last page behind is shown again; nothing happens with no page
      behind. */
  function GoBack(h: History): (r: History)
    ensures r.back + [r.current] + r.forward == h.back + [h.current] + h.forward
    ensures h.BackwardAvailable() ==> |r.back| == |h.back| - 1
    ensures !h.BackwardAvailable() ==> r == h
  {
    if h.back == [] then h
    else History(h.back[..|h.back| - 1], [h.current] + h.forward, h.back[|h.back| - 1])
  }

  /** forward: the current page is pushed behind (with no cap) and the
      first page ahead is shown; nothing happens with no page ahead. */
  function GoForward(h: History): (r: History)
    ensures r.back + [r.current] + r.forward == h.back + [h.current] + h.forward
    ensures h.ForwardAvailable() ==> |r.back| == |h.back| + 1
    ensures !h.ForwardAvailable() ==> r == h
  {
    if h.forward == [] then h
    else History(h.back + [h.current], h.forward[1..], h.forward[0])
  }

  /** What keeps the history within kMaxHistoryItems: the pages behind and
      ahead together never exceed it. */
  predicate Bounded(h: History) {
    |h.back| + |h.forward| <= MAX_HISTORY_ITEMS
  }

  /** Going back and then forward again restores the history. */
  lemma BackThenForward(h: History)
    requires h.BackwardAvailable()
    ensures GoForward(GoBack(h)) == h
  {
    var last := |h.back| - 1;
    assert h.back[..last] + [h.back[last]] == h.back;
  }

  /** Going forward and then back again restores the history. */
  lemma ForwardThenBack(h: History)
    requires h.ForwardAvailable()
    ensures GoBack(GoForward(h)) == h
  {
    assert [h.forward[0]] + h.forward[1..] == h.forward;
    assert (h.back + [h.current])[..|h.back|] == h.back;
  }

  /** A new page leaves behind it a valid current page as the newest page,
      the oldest ones dropped beyond twenty; otherwise the pages behind stay
      as they were. */
  lemma SetSourceHistory(h: History, page: HistoryItem)
    ensures var h' := SetSource(h, false, page);
            && (h.current.url.valid ==>
                  && h'.BackwardAvailable()
                  && h'.back[|h'.back| - 1] == h.current
                  && |h'.back| == (if |h.back| < MAX_HISTORY_ITEMS then |h.back| + 1 else MAX_HISTORY_ITEMS)
                  && h'.back[..|h'.back| - 1] == h.back[|h.back| + 1 - |h'.back|..])
            && (!h.current.url.valid ==> h'.back == h.back)
  {
    if h.current.url.valid {
      var all := h.back + [h.current];
      var b := Newest(all, MAX_HISTORY_ITEMS);
      assert b[..|b| - 1] == all[|all| - |b|..|all| - 1];
      assert all[..|all| - 1] == h.back;
    }
  }

  /** Every navigation keeps the history bounded, although forward pushes
      behind without a cap: a page only moves between the two lists. */
  lemma NavigationBounded(h: History, launched: bool, page: HistoryItem)
    requires Bounded(h)
    ensures Bounded(SetSource(h, launched, page))
    ensures Bounded(GoBack(h)) && Bounded(GoForward(h))
  {
  }

  /** After going back the page left is ahead; after going forward the
      page left is behind. */
  lemma NavigationAvailability(h: History)
    ensures h.BackwardAvailable() ==> GoBack(h).ForwardAvailable() && GoBack(h).forward[0] == h.current
    ensures h.ForwardAvailable() ==> GoForward(h).BackwardAvailable()
  {
  }

  // ---------------------------------------------------------------------
  // Zoom

  /** qBound(10, percentage, 300). */
  function ClampZoom(percentage: int): (z: int)
    ensures MIN_ZOOM <= z <= MAX_ZOOM
    ensures MIN_ZOOM <= percentage <= MAX_ZOOM ==> z == percentage
    ensures percentage < MIN_ZOOM ==> z == MIN_ZOOM
    ensures percentage > MAX_ZOOM ==> z == MAX_ZOOM
  {
    if percentage < MIN_ZOOM then MIN_ZOOM
    else if percentage > MAX_ZOOM then MAX_ZOOM
    else percentage
  }

  /** C++ integer division `deltaY / 120`, which truncates toward zero. */
  function WheelSteps(deltaY: int): (n: int)
    ensures deltaY >= 0 ==> 0 <= n * WHEEL_NOTCH <= deltaY < n * WHEEL_NOTCH + WHEEL_NOTCH
    ensures deltaY < 0 ==> n * WHEEL_NOTCH - WHEEL_NOTCH < deltaY <= n * WHEEL_NOTCH <= 0
  {
    if deltaY >= 0 then deltaY / WHEEL_NOTCH else -((-deltaY) / WHEEL_NOTCH)
  }

  /** One step up and one step down restore a zoom at least one step away
      from the top. */
  lemma ZoomUpDown(z: int)
    requires MIN_ZOOM <= z <= MAX_ZOOM - ZOOM_STEP
    ensures ClampZoom(ClampZoom(z + ZOOM_STEP) - ZOOM_STEP) == z
  {
  }

  /** Within one step of the top, a step up and a step down end one step
      below the top, whatever the zoom was: the clamp forgets it. */
  lemma ZoomUpDownNearTop(z: int)
    requires MAX_ZOOM - ZOOM_STEP < z <= MAX_ZOOM
    ensures ClampZoom(ClampZoom(z + ZOOM_STEP) - ZOOM_STEP) == MAX_ZOOM - ZOOM_STEP
  {
  }

  /** A wheel turn of less than one notch either way zooms by nothing. */
  lemma SmallWheelTurnIgnored(deltaY: int, z: int)
    requires -WHEEL_NOTCH < deltaY < WHEEL_NOTCH
    requires MIN_ZOOM <= z <= MAX_ZOOM
    ensures ClampZoom(z + ZOOM_STEP * WheelSteps(deltaY)) == z
  {
  }

  /** The widget: HelpViewerPrivate's two history lists and m_fontZoom, and
      the page the underlying viewer shows. */
  class Viewer {
    var backItems: seq<HistoryItem>
    var forwardItems: seq<HistoryItem>
    var current: HistoryItem
    var fontZoom: int

    function State(): History
      reads this
    {
      History(backItems, forwardItems, current)
    }

    predicate Valid()
      reads this
    {
      Bounded(State()) && MIN_ZOOM <= fontZoom <= MAX_ZOOM
    }

    /** HelpViewer(zoom): no history, nothing shown, and the zoom applied
        to the default of 100. */
    constructor(zoomPercentage: int)
      ensures Valid()
      ensures State() == History([], [], NO_PAGE)
      ensures fontZoom == ClampZoom(zoomPercentage)
    {
      backItems := [];
      forwardItems := [];
      current := NO_PAGE;
      fontZoom := DEFAULT_ZOOM;
      new;
      ApplyZoom(zoomPercentage);
    }

    /** applyZoom: the bounded percentage becomes the zoom; an unchanged
        value is left alone. */
    method ApplyZoom(percentage: int)
      requires Valid()
      modifies this
      ensures Valid()
      ensures fontZoom == ClampZoom(percentage)
      ensures State() == old(State())
      ensures ClampZoom(percentage) == old(fontZoom) ==> unchanged(this)
    {
      var newZoom := if percentage < MIN_ZOOM then MIN_ZOOM else if percentage > MAX_ZOOM then MAX_ZOOM else percentage;
      if newZoom == fontZoom {
        return;
      }
      fontZoom := newZoom;
    }

    /** incrementZoom(steps): asks for ten percent more per step. */
    method IncrementZoom(steps: int)
      requires Valid()
      modifies this
      ensures Valid()
      ensures fontZoom == ClampZoom(old(fontZoom) + ZOOM_STEP * steps)
      ensures State() == old(State())
    {
      var incrementPercentage := ZOOM_STEP * steps;
      var previousZoom := fontZoom;
      ApplyZoom(previousZoom + incrementPercentage);
    }

    method ScaleUp()
      requires Valid()
      modifies this
      ensures Valid()
      ensures fontZoom == ClampZoom(old(fontZoom) + ZOOM_STEP)
      ensures State() == old(State())
    {
      IncrementZoom(1);
    }

    method ScaleDown()
      requires Valid()
      modifies this
      ensures Valid()
      ensures fontZoom == ClampZoom(old(fontZoom) - ZOOM_STEP)
      ensures State() == old(State())
    {
      IncrementZoom(-1);
    }

    method ResetScale()
      requires Valid()
      modifies this
      ensures Valid()
      ensures fontZoom == DEFAULT_ZOOM
      ensures State() == old(State())
    {
      ApplyZoom(DEFAULT_ZOOM);
    }

    /** eventFilter for a wheel event on the viewport: with exactly the
        Control modifier it is consumed and zooms by whole notches (a zero
        delta does nothing); otherwise it is passed on, and the base filter
        does not consume it. */
    method WheelEvent(controlOnly: bool, deltaY: int) returns (consumed: bool)
      requires Valid()
      modifies this
      ensures Valid()
      ensures consumed == controlOnly
      ensures fontZoom == if controlOnly && deltaY != 0
                          then ClampZoom(old(fontZoom) + ZOOM_STEP * WheelSteps(deltaY))
                          else old(fontZoom)
      ensures State() == old(State())
    {
      if controlOnly {
        if deltaY != 0 {
          var steps := if deltaY >= 0 then deltaY / WHEEL_NOTCH else -((-deltaY) / WHEEL_NOTCH);
          IncrementZoom(steps);
        }
        return true;
      }
      return false;
    }

    /** doSetSource(url): `launched` is whether the URL was handed to an
        external application, `page` what the viewer then shows. */
    method DoSetSource(launched: bool, page: HistoryItem)
      requires Valid()
      modifies this
      ensures Valid()
      ensures State() == SetSource(old(State()), launched, page)
      ensures fontZoom == old(fontZoom)
    {
      if launched {
        return;
      }
      forwardItems := [];
      if current.url.valid {
        ghost var all := backItems + [current];
        backItems := backItems + [current];
        while |backItems| > MAX_HISTORY_ITEMS
          invariant |backItems| <= |all| && backItems == all[|all| - |backItems|..]
          invariant |backItems| >= MAX_HISTORY_ITEMS || backItems == all
          invariant forwardItems == [] && current == old(current) && fontZoom == old(fontZoom)
          decreases |backItems|
        {
          backItems := backItems[1..];
        }
      }
      current := page;
    }

    /** backward. */
    method Backward()
      requires Valid()
      modifies this
      ensures Valid()
      ensures State() == GoBack(old(State()))
      ensures fontZoom == old(fontZoom)
    {
      var previousItem := current;
      if backItems == [] {
        return;
      }
      forwardItems := [previousItem] + forwardItems;
      previousItem := backItems[|backItems| - 1];
      backItems := backItems[..|backItems| - 1];
      current := previousItem;
    }

    /** forward. */
    method Forward()
      requires Valid()
      modifies this
      ensures Valid()
      ensures State() == GoForward(old(State()))
      ensures fontZoom == old(fontZoom)
    {
      var nextItem := current;
      if forwardItems == [] {
        return;
      }
      backItems := backItems + [nextItem];
      nextItem := forwardItems[0];
      forwardItems := forwardItems[1..];
      current := nextItem;
    }
  }

  // ---------------------------------------------------------------------
  // MIME types

  /** One row of extensionMap; an empty MIME type stands for nullptr. */
  datatype Extension = Extension(extension: string, mimeType: string)

  const EXTENSION_MAP: seq<Extension> := [
    Extension(".bmp", "image/bmp"),
    Extension(".css", "text/css"),
    Extension(".gif", "image/gif"),
    Extension(".html", "text/html"),
    Extension(".htm", "text/html"),
    Extension(".ico", "image/x-icon"),
    Extension(".jpeg", "image/jpeg"),
    Extension(".jpg", "image/jpeg"),
    Extension(".js", "application/x-javascript"),
    Extension(".mng", "video/x-mng"),
    Extension(".pbm", "image/x-portable-bitmap"),
    Extension(".pgm", "image/x-portable-graymap"),
    Extension(".pdf", ""),
    Extension(".png", "image/png"),
    Extension(".ppm", "image/x-portable-pixmap"),
    Extension(".rss", "application/rss+xml"),
    Extension(".svg", "image/svg+xml"),
    Extension(".svgz", "image/svg+xml"),
    Extension(".text", "text/plain"),
    Extension(".tif", "image/tiff"),
    Extension(".tiff", "image/tiff"),
    Extension(".txt", "text/plain"),
    Extension(".xbm", "image/x-xbitmap"),
    Extension(".xml", "text/xml"),
    Extension(".xpm", "image/x-xpm"),
    Extension(".xsl", "text/xsl"),
    Extension(".xhtml", "application/xhtml+xml"),
    Extension(".wml", "text/vnd.wap.wml"),
    Extension(".wmlc", "application/vnd.wap.wmlc"),
    Extension("about:blank", "")
  ]

  const OCTET_STREAM: string := "application/octet-stream"

  /** The last position of `c` in `s`, -1 when there is none. */
  function LastIndexOf(s: string, c: char): (r: int)
    ensures -1 <= r < |s|
    ensures r >= 0 ==> s[r] == c
    ensures forall j | r < j < |s| :: s[j] != c
  {
    if s == [] then -1
    else if s[|s| - 1] == c then |s| - 1
    else LastIndexOf(s[..|s| - 1], c)
  }

  /** path.mid(path.lastIndexOf('.')): from the last dot on, or the whole
      path when it has no dot. */
  function Suffix(path: string): (r: string) {
    var index := LastIndexOf(path, '.');
    if index < 0 then path else path[index..]
  }

  /** QByteArray::toLower: ASCII capitals become small letters. */
  function LowerChar(c: char): char {
    if 'A' <= c <= 'Z' then (c as int + 32) as char else c
  }

  function Lower(s: string): (r: string)
    ensures |r| == |s|
    ensures forall i | 0 <= i < |s| :: r[i] == LowerChar(s[i])
  {
    seq(|s|, i requires 0 <= i < |s| => LowerChar(s[i]))
  }

  /** The MIME type of the first row whose extension is `ext`. */
  function Lookup(table: seq<Extension>, ext: string): Option<string> {
    if table == [] then None
    else if table[0].extension == ext then Some(table[0].mimeType)
    else Lookup(table[1..], ext)
  }

  /** mimeFromUrl, on the URL's path. */
  function MimeFromPath(path: string): (m: string)
    ensures m == OCTET_STREAM
            || exists i | 0 <= i < |EXTENSION_MAP| ::
                 EXTENSION_MAP[i].extension == Lower(Suffix(path)) && EXTENSION_MAP[i].mimeType == m
  {
    var ext := Lower(Suffix(path));
    match Lookup(EXTENSION_MAP, ext)
    case Some(mime) => LookupFound(EXTENSION_MAP, ext); mime
    case None => OCTET_STREAM
  }

  /** mimeFromUrl: the type of the URL's path, whatever the case of its
      letters. */
  function MimeFromUrl(url: Url): (m: string)
    ensures m == MimeFromPath(Lower(url.path))
  {
    MimeIgnoresCase(url.path);
    MimeFromPath(url.path)
  }

  /** canOpenPage: the viewer shows a file itself unless its type is
      known to need another application, which is exactly a pdf file or
      about:blank. */
  function CanOpenPage(path: string): (ok: bool)
    ensures !ok <==> Lower(Suffix(path)) == ".pdf" || Lower(Suffix(path)) == "about:blank"
  {
    NoMimeExactly(path);
    MimeFromPath(path) != ""
  }

  /** Exactly a pdf file and about:blank have no MIME type. */
  lemma NoMimeExactly(path: string)
    ensures MimeFromPath(path) == "" <==> Lower(Suffix(path)) == ".pdf" || Lower(Suffix(path)) == "about:blank"
  {
    var ext := Lower(Suffix(path));
    assert OCTET_STREAM != "";
    PdfRow();
    BlankRow();
    if Lookup(EXTENSION_MAP, ext) == Some("") {
      EmptyMimeIsPdfOrBlank(ext);
    }
  }

  /** Only the pdf and about:blank rows are found with no MIME type. */
  lemma EmptyMimeIsPdfOrBlank(ext: string)
    requires Lookup(EXTENSION_MAP, ext) == Some("")
    ensures ext == ".pdf" || ext == "about:blank"
  {
    LookupFound(EXTENSION_MAP, ext);
    var i :| 0 <= i < |EXTENSION_MAP| && EXTENSION_MAP[i].extension == ext && EXTENSION_MAP[i].mimeType == "";
    EmptyMimeRows(i);
  }

  /** The row a lookup returns is the first row with that extension. */
  lemma {:induction false} LookupFirst(table: seq<Extension>, ext: string, i: nat)
    requires i < |table| && table[i].extension == ext
    requires forall j | 0 <= j < i :: table[j].extension != ext
    ensures Lookup(table, ext) == Some(table[i].mimeType)
    decreases i
  {
    if i > 0 {
      LookupFirst(table[1..], ext, i - 1);
    }
  }

  /** A lookup that finds something found it in some row. */
  lemma {:induction false} LookupFound(table: seq<Extension>, ext: string)
    requires Lookup(table, ext).Some?
    ensures exists i | 0 <= i < |table| :: table[i].extension == ext && table[i].mimeType == Lookup(table, ext).value
    decreases |table|
  {
    if table[0].extension != ext {
      LookupFound(table[1..], ext);
      var i :| 0 <= i < |table[1..]| && table[1..][i].extension == ext && table[1..][i].mimeType == Lookup(table, ext).value;
      assert table[i + 1] == table[1..][i];
    }
  }

  /** Only the pdf row and the about:blank row have no MIME type. */
  lemma EmptyMimeRows(i: nat)
    requires i < |EXTENSION_MAP| && EXTENSION_MAP[i].mimeType == ""
    ensures EXTENSION_MAP[i].extension == ".pdf" || EXTENSION_MAP[i].extension == "about:blank"
  {
  }

  /** Every extension but about:blank starts with a dot. */
  lemma DottedRows(i: nat)
    requires i < |EXTENSION_MAP|
    ensures EXTENSION_MAP[i].extension != []
    ensures EXTENSION_MAP[i].extension[0] == '.' || EXTENSION_MAP[i].extension == "about:blank"
  {
  }

  lemma PdfRow()
    ensures Lookup(EXTENSION_MAP, ".pdf") == Some("")
  {
    forall j | 0 <= j < 12 ensures EXTENSION_MAP[j].extension != ".pdf" {
      assert |EXTENSION_MAP[j].extension| != 4 || EXTENSION_MAP[j].extension[1] != 'p'
             || EXTENSION_MAP[j].extension[2] != 'd';
    }
    LookupFirst(EXTENSION_MAP, ".pdf", 12);
  }

  lemma BlankRow()
    ensures Lookup(EXTENSION_MAP, "about:blank") == Some("")
  {
    forall j | 0 <= j < 29 ensures EXTENSION_MAP[j].extension != "about:blank" {
      DottedRows(j);
    }
    LookupFirst(EXTENSION_MAP, "about:blank", 29);
  }

  /** The viewer opens a file itself exactly when its lowered suffix is
      neither ".pdf" nor "about:blank". */
  /** Lowering leaves dots where they are. */
  lemma LowerSuffix(path: string)
    ensures Suffix(Lower(path)) == Lower(Suffix(path))
  {
    var i, j := LastIndexOf(path, '.'), LastIndexOf(Lower(path), '.');
    assert i == j by {
      assert forall k | 0 <= k < |path| :: (Lower(path)[k] == '.' <==> path[k] == '.');
    }
  }

  /** The MIME type does not depend on the case of the path. */
  lemma MimeIgnoresCase(path: string)
    ensures MimeFromPath(Lower(path)) == MimeFromPath(path)
  {
    LowerSuffix(path);
    assert Lower(Lower(Suffix(path))) == Lower(Suffix(path));
  }

  /** A path without a dot is looked up whole, and one that matches no row
      is an octet stream. */
  lemma MimeWithoutDot(path: string)
    requires forall i | 0 <= i < |path| :: path[i] != '.'
    requires Lower(path) != "about:blank"
    ensures MimeFromPath(path) == OCTET_STREAM
  {
    var ext := Lower(Suffix(path));
    assert Suffix(path) == path;
    if Lookup(EXTENSION_MAP, ext).Some? {
      LookupFound(EXTENSION_MAP, ext);
      var i :| 0 <= i < |EXTENSION_MAP| && EXTENSION_MAP[i].extension == ext;
      DottedRows(i);
    }
  }

  // ---------------------------------------------------------------------
  // Local URLs

  /** isLocalUrl: no scheme, or one the help system serves itself; a
      relative link is local and a web address never is. */
  const LOCAL_SCHEMES: set<string> := {"", "file", "qrc", "data", "qthelp", "about"}

  function IsLocalUrl(url: Url): (local: bool)
    ensures local <==> url.scheme in LOCAL_SCHEMES
    ensures url.scheme == "" ==> local
    ensures url.scheme == "http" || url.scheme == "https" ==> !local
  {
    var scheme := url.scheme;
    scheme == "" || scheme == "file" || scheme == "qrc" || scheme == "data"
    || scheme == "qthelp" || scheme == "about"
  }
}
