/** How the two HTTP clients show the headers of one response (src/bridge/http_sync.rs):
    `hyper_response_to_sync` for the I/O bridge, and the header loop of `execute_ureq_request`. */
module HeaderViews {
  import opened Wrappers

  type Headers = map<string, string>

  /** Header lines as they are on the wire, in order; names may be repeated. */
  type Lines = seq<(string, string)>

  datatype Client = Bridge | Ureq

  /** Says which texts parse as a cookie; the empty one does not. */
  type CookieTest = test: string -> bool | !test("") witness _ => false

  /** What ureq makes of a header value's bytes and of a body, if anything, and what a cookie is. */
  datatype Views = Views(headerText: string -> Option<string>, bodyText: string -> Option<string>, isCookie: CookieTest)

  // ---------------------------------------------------------------- names and values

  function LowerChar(c: char): char {
    if 'A' <= c <= 'Z' then (c as int + 32) as char else c
  }

  function Lower(s: string): string {
    seq(|s|, i requires 0 <= i < |s| => LowerChar(s[i]))
  }

  /** Two names are the same exactly if they are equal but for the case of ASCII letters. */
  lemma SameNameIff(a: string, b: string)
    ensures Lower(a) == Lower(b) <==>
            |a| == |b| && forall i :: 0 <= i < |a| ==>
              || a[i] == b[i]
              || ('A' <= a[i] <= 'Z' && b[i] as int == a[i] as int + 32)
              || ('A' <= b[i] <= 'Z' && a[i] as int == b[i] as int + 32)
  {
    if Lower(a) == Lower(b) {
      assert |Lower(a)| == |Lower(b)|;
      forall i | 0 <= i < |a| ensures LowerChar(a[i]) == LowerChar(b[i]) {
        assert Lower(a)[i] == Lower(b)[i];
      }
    }
  }

  /** The values given under `name`, in order. */
  function ValuesOf(lines: Lines, name: string): seq<string> {
    if lines == [] then []
    else
      var front, last := ValuesOf(lines[..|lines| - 1], name), lines[|lines| - 1];
      if Lower(last.0) == name then front + [last.1] else front
  }

  function Names(lines: Lines): set<string> {
    set i | 0 <= i < |lines| :: Lower(lines[i].0)
  }

  lemma {:induction false} NamedHaveValues(lines: Lines, name: string)
    ensures ValuesOf(lines, name) != [] <==> name in Names(lines)
    decreases |lines|
  {
    if lines != [] {
      var n := |lines| - 1;
      NamedHaveValues(lines[..n], name);
      if Lower(lines[n].0) == name {
        assert name in Names(lines);
      }
      if name in Names(lines[..n]) {
        var i :| 0 <= i < n && Lower(lines[..n][i].0) == name;
        assert Lower(lines[i].0) == name;
      }
      if name in Names(lines) && Lower(lines[n].0) != name {
        var i :| 0 <= i < |lines| && Lower(lines[i].0) == name;
        assert Lower(lines[..n][i].0) == name;
      }
    }
  }

  lemma NamesNext(lines: Lines, k: nat)
    requires k < |lines|
    ensures Names(lines[..k + 1]) == Names(lines[..k]) + {Lower(lines[k].0)}
    ensures forall name :: ValuesOf(lines[..k + 1], name) ==
                           if Lower(lines[k].0) == name then ValuesOf(lines[..k], name) + [lines[k].1] else ValuesOf(lines[..k], name)
  {
    var longer := lines[..k + 1];
    assert longer[..k] == lines[..k] && longer[|longer| - 1] == lines[k];
    forall name | name in Names(longer) ensures name in Names(lines[..k]) + {Lower(lines[k].0)} {
      var i :| 0 <= i < |longer| && Lower(longer[i].0) == name;
      if i < k {
        assert Lower(lines[..k][i].0) == name;
      }
    }
    forall name | name in Names(lines[..k]) ensures name in Names(longer) {
      var i :| 0 <= i < k && Lower(lines[..k][i].0) == name;
      assert Lower(longer[i].0) == name;
    }
    assert Lower(longer[k].0) in Names(longer);
  }

  // ---------------------------------------------------------------- the two views

  /** What `to_str` accepts. */
  predicate Visible(value: string) {
    forall i :: 0 <= i < |value| ==> ' ' <= value[i] <= '~' || value[i] == '\t'
  }

  /** hyper's text of a value: empty unless it is all visible ASCII. */
  function HyperText(value: string): string {
    if Visible(value) then value else ""
  }

  /** The value a client shows of those under one name: hyper's loop walks every line, so the last
      one wins; ureq's walks the names and asks for each one's first value, if that is text. */
  function Shown(views: Views, client: Client, values: seq<string>): Option<string> {
    if values == [] then None
    else if client == Bridge then Some(HyperText(values[|values| - 1]))
    else views.headerText(values[0])
  }

  function HeadersOf(views: Views, client: Client, lines: Lines): Headers {
    map name | name in Names(lines) && Shown(views, client, ValuesOf(lines, name)).Some? :: Shown(views, client, ValuesOf(lines, name)).value
  }

  function CookiesOf(views: Views, client: Client, lines: Lines): seq<string> {
    var values := ValuesOf(lines, "set-cookie");
    if client == Bridge then seq(|values|, i requires 0 <= i < |values| => HyperText(values[i]))
    else if values == [] || views.headerText(values[0]).None? then []
    else Copies(views.headerText(values[0]).value, |values|)
  }

  function Copies(text: string, n: nat): seq<string> {
    seq(n, _ => text)
  }

  function LocationOf(views: Views, client: Client, lines: Lines): Option<string> {
    Shown(views, client, ValuesOf(lines, "location"))
  }

  function BodyOf(views: Views, client: Client, body: string): string {
    if client == Bridge then body else if views.bodyText(body).Some? then views.bodyText(body).value else ""
  }

  lemma LocationInHeaders(views: Views, client: Client, lines: Lines)
    ensures LocationOf(views, client, lines) ==
            (var headers := HeadersOf(views, client, lines); if "location" in headers then Some(headers["location"]) else None)
  {
    NamedHaveValues(lines, "location");
  }

  // ---------------------------------------------------------------- the loops

  /** hyper's loop: every line, in order. */
  method HyperHeaders(views: Views, lines: Lines) returns (headers: Headers, cookies: seq<string>)
    ensures headers == HeadersOf(views, Bridge, lines)
    ensures cookies == CookiesOf(views, Bridge, lines)
  {
    hide ValuesOf, Visible;
    headers, cookies := map[], [];
    NoLines(views);
    for k := 0 to |lines|
      invariant headers == HeadersOf(views, Bridge, lines[..k])
      invariant cookies == CookiesOf(views, Bridge, lines[..k])
    {
      BridgeNext(views, lines, k);
      var name, value := Lower(lines[k].0), HyperText(lines[k].1);
      if name == "set-cookie" {
        cookies := cookies + [value];
      }
      headers := headers[name := value];
    }
    assert lines[..|lines|] == lines;
  }

  lemma NoLines(views: Views)
    ensures HeadersOf(views, Bridge, []) == map[] && CookiesOf(views, Bridge, []) == []
  {
  }

  lemma BridgeShownNext(views: Views, lines: Lines, k: nat, name: string)
    requires k < |lines|
    ensures Shown(views, Bridge, ValuesOf(lines[..k + 1], name)) ==
            if name == Lower(lines[k].0) then Some(HyperText(lines[k].1)) else Shown(views, Bridge, ValuesOf(lines[..k], name))
  {
    NamesNext(lines, k);
  }

  lemma BridgeHeadersNext(views: Views, lines: Lines, k: nat)
    requires k < |lines|
    ensures HeadersOf(views, Bridge, lines[..k + 1]) == HeadersOf(views, Bridge, lines[..k])[Lower(lines[k].0) := HyperText(lines[k].1)]
  {
    NamesNext(lines, k);
    hide ValuesOf, Names, Shown, HyperText;
    forall name: string
      ensures Shown(views, Bridge, ValuesOf(lines[..k + 1], name)) ==
              if name == Lower(lines[k].0) then Some(HyperText(lines[k].1)) else Shown(views, Bridge, ValuesOf(lines[..k], name))
    {
      BridgeShownNext(views, lines, k, name);
    }
  }

  lemma BridgeNext(views: Views, lines: Lines, k: nat)
    requires k < |lines|
    ensures var name, value := Lower(lines[k].0), HyperText(lines[k].1);
            && HeadersOf(views, Bridge, lines[..k + 1]) == HeadersOf(views, Bridge, lines[..k])[name := value]
            && CookiesOf(views, Bridge, lines[..k + 1]) ==
               if name == "set-cookie" then CookiesOf(views, Bridge, lines[..k]) + [value] else CookiesOf(views, Bridge, lines[..k])
  {
    hide ValuesOf, HeadersOf, HyperText, Names;
    BridgeHeadersNext(views, lines, k);
    NamesNext(lines, k);
  }

  /** ureq's `header`: what it makes of the first line with that name. */
  method UreqHeader(views: Views, lines: Lines, name: string) returns (value: Option<string>)
    ensures value == Shown(views, Ureq, ValuesOf(lines, name))
  {
    for k := 0 to |lines|
      invariant ValuesOf(lines[..k], name) == []
    {
      NamesNext(lines, k);
      if Lower(lines[k].0) == name {
        FirstValueStays(lines, k + 1, name);
        return views.headerText(lines[k].1);
      }
    }
    assert lines[..|lines|] == lines;
    return None;
  }

  lemma {:induction false} FirstValueStays(lines: Lines, k: nat, name: string)
    requires k <= |lines| && ValuesOf(lines[..k], name) != []
    ensures ValuesOf(lines, name) != [] && ValuesOf(lines, name)[0] == ValuesOf(lines[..k], name)[0]
    decreases |lines| - k
  {
    if k == |lines| {
      assert lines[..k] == lines;
    } else {
      NamesNext(lines, k);
      FirstValueStays(lines, k + 1, name);
    }
  }

  /** ureq's headers and cookies after `k` names. */
  function UreqShown(views: Views, lines: Lines, k: nat): Headers
    requires k <= |lines|
  {
    map name | name in Names(lines[..k]) && Shown(views, Ureq, ValuesOf(lines, name)).Some? :: Shown(views, Ureq, ValuesOf(lines, name)).value
  }

  function UreqCookies(views: Views, lines: Lines, k: nat): seq<string>
    requires k <= |lines|
  {
    var text := Shown(views, Ureq, ValuesOf(lines, "set-cookie"));
    if text.None? then [] else Copies(text.value, |ValuesOf(lines[..k], "set-cookie")|)
  }

  lemma {:induction false} UreqShownNext(views: Views, lines: Lines, k: nat)
    requires k < |lines|
    ensures var name := Lower(lines[k].0);
            var text := Shown(views, Ureq, ValuesOf(lines, name));
            UreqShown(views, lines, k + 1) == if text.Some? then UreqShown(views, lines, k)[name := text.value] else UreqShown(views, lines, k)
  {
    hide Shown, ValuesOf;
    NamesAdd(lines, k);
    hide Names;
  }

  lemma NamesAdd(lines: Lines, k: nat)
    requires k < |lines|
    ensures Names(lines[..k + 1]) == Names(lines[..k]) + {Lower(lines[k].0)}
  {
    NamesNext(lines, k);
  }

  lemma CopiesNext(text: string, n: nat)
    ensures Copies(text, n + 1) == Copies(text, n) + [text] && Copies(text, 0) == []
  {
  }

  lemma CountNext(lines: Lines, k: nat, name: string)
    requires k < |lines|
    ensures |ValuesOf(lines[..k + 1], name)| == |ValuesOf(lines[..k], name)| + if Lower(lines[k].0) == name then 1 else 0
  {
    NamesNext(lines, k);
  }

  lemma {:induction false} UreqCookiesNext(views: Views, lines: Lines, k: nat)
    requires k < |lines|
    ensures var text := Shown(views, Ureq, ValuesOf(lines, "set-cookie"));
            UreqCookies(views, lines, k + 1) ==
            if Lower(lines[k].0) == "set-cookie" && text.Some? then UreqCookies(views, lines, k) + [text.value] else UreqCookies(views, lines, k)
  {
    hide Shown, ValuesOf, Copies, Lower;
    CountNext(lines, k, "set-cookie");
    var text := Shown(views, Ureq, ValuesOf(lines, "set-cookie"));
    if text.Some? {
      CopiesNext(text.value, |ValuesOf(lines[..k], "set-cookie")|);
    }
  }

  /** ureq's loop: every name, with repetitions, and that name's first value. */
  method UreqHeaders(views: Views, lines: Lines) returns (headers: Headers, cookies: seq<string>)
    ensures headers == HeadersOf(views, Ureq, lines)
    ensures cookies == CookiesOf(views, Ureq, lines)
  {
    hide ValuesOf;
    headers, cookies := map[], [];
    NamedHaveValues([], "set-cookie");
    CopiesNext("", 0);
    for k := 0 to |lines|
      invariant headers == UreqShown(views, lines, k)
      invariant cookies == UreqCookies(views, lines, k)
    {
      UreqShownNext(views, lines, k);
      UreqCookiesNext(views, lines, k);
      var name := Lower(lines[k].0);
      var value := UreqHeader(views, lines, name);
      if value.Some? {
        if name == "set-cookie" {
          cookies := cookies + [value.value];
        }
        headers := headers[name := value.value];
      }
    }
    assert lines[..|lines|] == lines;
  }

  // ---------------------------------------------------------------- what is shown

  /** hyper: the last line of a name decides, and a value is shown as it is if all its characters
      are visible ASCII or tabs, and as nothing otherwise. */
  lemma BridgeShows(views: Views, lines: Lines, i: nat)
    requires i < |lines| && forall j :: i < j < |lines| ==> Lower(lines[j].0) != Lower(lines[i].0)
    ensures var name, value, headers := Lower(lines[i].0), lines[i].1, HeadersOf(views, Bridge, lines);
            && name in headers
            && ((forall c :: c in value ==> '\t' == c || ' ' <= c <= '~') ==> headers[name] == value)
            && ((exists c :: c in value && '\t' != c && (c < ' ' || c > '~')) ==> headers[name] == "")
  {
    var name, value := Lower(lines[i].0), lines[i].1;
    LastValue(lines, |lines|, i);
    NamedHaveValues(lines, name);
    VisibleIff(value);
    assert lines[..|lines|] == lines;
  }

  lemma {:induction false} LastValue(lines: Lines, k: nat, i: nat)
    requires i < k <= |lines| && forall j :: i < j < k ==> Lower(lines[j].0) != Lower(lines[i].0)
    ensures var values := ValuesOf(lines[..k], Lower(lines[i].0)); values != [] && values[|values| - 1] == lines[i].1
    decreases k
  {
    NamesNext(lines, k - 1);
    if i < k - 1 {
      LastValue(lines, k - 1, i);
    }
  }

  /** ureq: the first line of a name decides, and the name is left out if it makes nothing of it. */
  lemma UreqShows(views: Views, lines: Lines, i: nat)
    requires i < |lines| && forall j :: 0 <= j < i ==> Lower(lines[j].0) != Lower(lines[i].0)
    ensures var name, text, headers := Lower(lines[i].0), views.headerText(lines[i].1), HeadersOf(views, Ureq, lines);
            if text.Some? then name in headers && headers[name] == text.value else name !in headers
  {
    var name := Lower(lines[i].0);
    NothingBefore(lines, i, name);
    NamesNext(lines, i);
    FirstValueStays(lines, i + 1, name);
    NamedHaveValues(lines, name);
  }

  lemma {:induction false} NothingBefore(lines: Lines, k: nat, name: string)
    requires k <= |lines| && forall j :: 0 <= j < k ==> Lower(lines[j].0) != name
    ensures ValuesOf(lines[..k], name) == []
    decreases k
  {
    if k > 0 {
      NamesNext(lines, k - 1);
      NothingBefore(lines, k - 1, name);
    }
  }

  /** No client shows a name that is on no line. */
  lemma OnlyNamesShown(views: Views, client: Client, lines: Lines, name: string)
    requires name in HeadersOf(views, client, lines)
    ensures exists i :: 0 <= i < |lines| && Lower(lines[i].0) == name
  {
  }

  lemma VisibleIff(value: string)
    ensures HyperText(value) == value <==> forall c :: c in value ==> '\t' == c || ' ' <= c <= '~'
    ensures HyperText(value) != value ==> HyperText(value) == ""
  {
    if forall c :: c in value ==> '\t' == c || ' ' <= c <= '~' {
      assert forall i :: 0 <= i < |value| ==> value[i] in value;
    }
  }

  /** hyper's cookies, line by line. */
  lemma BridgeCookiesShown(views: Views, lines: Lines, line: (string, string))
    ensures CookiesOf(views, Bridge, []) == []
    ensures CookiesOf(views, Bridge, lines + [line]) ==
            CookiesOf(views, Bridge, lines)
            + if Lower(line.0) != "set-cookie" then [] else if forall c :: c in line.1 ==> '\t' == c || ' ' <= c <= '~' then [line.1] else [""]
  {
    VisibleIff(line.1);
    hide Lower, HyperText;
    var longer := lines + [line];
    NamesNext(longer, |lines|);
    assert longer[..|lines| + 1] == longer && longer[..|lines|] == lines;
  }

  /** ureq's cookies: what it makes of the first Set-Cookie line, once for each of them. */
  lemma UreqCookiesShown(views: Views, lines: Lines, i: nat)
    requires i < |lines| && Lower(lines[i].0) == "set-cookie" && forall j :: 0 <= j < i ==> Lower(lines[j].0) != "set-cookie"
    ensures var cookies, text := CookiesOf(views, Ureq, lines), views.headerText(lines[i].1);
            if text.None? then cookies == []
            else |cookies| == |CookiesOf(views, Bridge, lines)| && forall k :: 0 <= k < |cookies| ==> cookies[k] == text.value
  {
    NothingBefore(lines, i, "set-cookie");
    NamesNext(lines, i);
    hide Lower, ValuesOf;
    FirstValueStays(lines, i + 1, "set-cookie");
  }

  // ---------------------------------------------------------------- when the views agree

  function Without(values: seq<string>, value: string): seq<string> {
    if values == [] then []
    else
      var front, last := Without(values[..|values| - 1], value), values[|values| - 1];
      if last == value then front else front + [last]
  }

  /** What the jar takes of some Set-Cookie values: those that parse, and of a repeated one the last. */
  function CookiesIn(views: Views, values: seq<string>): seq<string> {
    if values == [] then []
    else
      var front, last := CookiesIn(views, values[..|values| - 1]), values[|values| - 1];
      if views.isCookie(last) then Without(front, last) + [last] else front
  }

  predicate Distinct(values: seq<string>) {
    forall i, j :: 0 <= i < j < |values| ==> values[i] != values[j]
  }

  lemma {:induction false} WithoutShape(values: seq<string>, value: string)
    ensures forall c :: c in Without(values, value) <==> c in values && c != value
    ensures Distinct(values) ==> Distinct(Without(values, value))
    decreases |values|
  {
    if values != [] {
      var front := values[..|values| - 1];
      WithoutShape(front, value);
      assert values == front + [values[|values| - 1]];
      assert Distinct(values) ==> Distinct(front) && values[|values| - 1] !in front;
    }
  }

  /** The cookies taken are the values that parse, each once. */
  lemma {:induction false} CookiesInShape(views: Views, values: seq<string>)
    ensures forall c :: c in CookiesIn(views, values) <==> c in values && views.isCookie(c)
    ensures Distinct(CookiesIn(views, values))
    decreases |values|
  {
    if values != [] {
      var front, last := values[..|values| - 1], values[|values| - 1];
      CookiesInShape(views, front);
      assert values == front + [last];
      if views.isCookie(last) {
        WithoutShape(CookiesIn(views, front), last);
      }
    }
  }

  /** A value given for the first time is taken behind all others if it parses, and one given again
      is taken again, behind them. */
  lemma {:induction false} CookiesInOrder(views: Views, values: seq<string>, value: string)
    ensures value !in values ==> CookiesIn(views, values + [value]) == CookiesIn(views, values) + if views.isCookie(value) then [value] else []
    ensures views.isCookie(value) ==>
              var taken := CookiesIn(views, values + [value]);
              taken != [] && taken[|taken| - 1] == value
  {
    assert (values + [value])[..|values|] == values;
    if value !in values {
      CookiesInShape(views, values);
      WithoutAbsent(CookiesIn(views, values), value);
    }
  }

  lemma {:induction false} WithoutAbsent(values: seq<string>, value: string)
    requires value !in values
    ensures Without(values, value) == values
    decreases |values|
  {
    if values != [] {
      WithoutAbsent(values[..|values| - 1], value);
      assert values[|values| - 1] in values;
      assert values == values[..|values| - 1] + [values[|values| - 1]];
    }
  }

  lemma EqualOnes(values: seq<string>, value: string)
    requires forall i :: 0 <= i < |values| ==> values[i] == value
    ensures Distinct(values) <==> |values| <= 1
  {
    if |values| > 1 {
      assert values[0] == values[1];
    }
  }

  lemma OneCookie(views: Views, values: seq<string>, value: string)
    ensures CookiesIn(views, values) == [value] <==>
            value in values && views.isCookie(value) && forall c :: c in values && views.isCookie(c) ==> c == value
    ensures CookiesIn(views, values) == [] <==> forall c :: c in values ==> !views.isCookie(c)
  {
    CookiesInShape(views, values);
    var taken := CookiesIn(views, values);
    hide CookiesIn;
    if taken == [value] {
      assert taken[0] == value;
      forall c | c in values && views.isCookie(c) ensures c == value {
        assert c in taken;
      }
    }
    if value in values && views.isCookie(value) && forall c :: c in values && views.isCookie(c) ==> c == value {
      assert value in taken;
      forall i | 0 <= i < |taken| ensures taken[i] == value {
        assert taken[i] in taken;
      }
      EqualOnes(taken, value);
      assert taken == [value];
    }
    if taken != [] {
      assert taken[0] in taken;
    }
  }

  /** ureq's text of the first Set-Cookie is a cookie, hyper shows it too and no other cookie; or
      neither client has a cookie. */
  predicate CookiesAlike(views: Views, values: seq<string>) {
    values != [] ==>
      var text := views.headerText(values[0]);
      if text.Some? && views.isCookie(text.value) then
        && (exists i :: 0 <= i < |values| && HyperText(values[i]) == text.value)
        && (forall i :: 0 <= i < |values| && views.isCookie(HyperText(values[i])) ==> HyperText(values[i]) == text.value)
      else forall i :: 0 <= i < |values| ==> !views.isCookie(HyperText(values[i]))
  }

  /** What the two clients can tell apart in one response. */
  predicate SeenAlike(views: Views, lines: Lines) {
    && CookiesAlike(views, ValuesOf(lines, "set-cookie"))
    && var locations := ValuesOf(lines, "location");
       locations != [] ==> views.headerText(locations[0]) == Some(HyperText(locations[|locations| - 1]))
  }

  lemma UreqTakes(views: Views, text: string, n: nat)
    requires n > 0
    ensures CookiesIn(views, Copies(text, n)) == if views.isCookie(text) then [text] else []
  {
    OneCookie(views, Copies(text, n), text);
    assert Copies(text, n)[0] == text;
  }

  lemma CookiesAgreeIff(views: Views, lines: Lines)
    ensures CookiesIn(views, CookiesOf(views, Bridge, lines)) == CookiesIn(views, CookiesOf(views, Ureq, lines)) <==>
            CookiesAlike(views, ValuesOf(lines, "set-cookie"))
  {
    hide ValuesOf, HyperText, CookiesIn, Copies;
    var vs, bridge := ValuesOf(lines, "set-cookie"), CookiesOf(views, Bridge, lines);
    assert |bridge| == |vs| && forall i :: 0 <= i < |vs| ==> bridge[i] == HyperText(vs[i]);
    NothingTaken(views);
    if vs != [] {
      var text := views.headerText(vs[0]);
      OneCookie(views, bridge, if text.Some? then text.value else "");
      assert forall c :: c in bridge <==> exists i :: 0 <= i < |vs| && HyperText(vs[i]) == c;
      if text.Some? {
        UreqTakes(views, text.value, |vs|);
      }
    } else {
      assert bridge == [];
    }
  }

  lemma NothingTaken(views: Views)
    ensures CookiesIn(views, []) == []
  {
  }

  /** The clients store the same cookies and see the same location exactly when ureq's text of the
      first Set-Cookie is the only cookie among hyper's, or neither has a cookie, and ureq's text of
      the first Location is hyper's of the last. */
  lemma ViewsAgreeIff(views: Views, lines: Lines)
    ensures && CookiesIn(views, CookiesOf(views, Bridge, lines)) == CookiesIn(views, CookiesOf(views, Ureq, lines))
            && LocationOf(views, Bridge, lines) == LocationOf(views, Ureq, lines)
            <==> SeenAlike(views, lines)
  {
    hide ValuesOf, HyperText, CookiesIn, CookiesOf, CookiesAlike;
    CookiesAgreeIff(views, lines);
  }

  /** ureq's text of the first value is hyper's of every one. */
  predicate OneText(views: Views, values: seq<string>) {
    forall i :: 0 <= i < |values| ==> Some(HyperText(values[i])) == views.headerText(values[0])
  }

  /** A response that both clients show alike: the same text of every name's first and last value
      and of every Set-Cookie, and of the body unless it is thrown away. */
  predicate ShownAlike(views: Views, lines: Lines, body: string, sink: bool) {
    && (forall name :: name in Names(lines) ==> Shown(views, Ureq, ValuesOf(lines, name)) == Shown(views, Bridge, ValuesOf(lines, name)))
    && OneText(views, ValuesOf(lines, "set-cookie"))
    && (sink || views.bodyText(body) == Some(body) || (views.bodyText(body) == None && body == ""))
  }

  lemma HeadersAgreeIff(views: Views, lines: Lines)
    ensures HeadersOf(views, Bridge, lines) == HeadersOf(views, Ureq, lines) <==>
            forall name :: name in Names(lines) ==> Shown(views, Ureq, ValuesOf(lines, name)) == Shown(views, Bridge, ValuesOf(lines, name))
  {
    var bridge, ureq := HeadersOf(views, Bridge, lines), HeadersOf(views, Ureq, lines);
    forall name | name in Names(lines) ensures name in bridge && Shown(views, Bridge, ValuesOf(lines, name)) == Some(bridge[name]) {
      NamedHaveValues(lines, name);
    }
    if bridge == ureq {
      forall name | name in Names(lines) ensures Shown(views, Ureq, ValuesOf(lines, name)) == Some(bridge[name]) {
        assert name in ureq;
      }
    }
  }

  lemma CookieListsAgreeIff(views: Views, lines: Lines)
    ensures CookiesOf(views, Bridge, lines) == CookiesOf(views, Ureq, lines) <==> OneText(views, ValuesOf(lines, "set-cookie"))
  {
    hide ValuesOf, HyperText;
    var values, bridge, ureq := ValuesOf(lines, "set-cookie"), CookiesOf(views, Bridge, lines), CookiesOf(views, Ureq, lines);
    assert forall i :: 0 <= i < |values| ==> bridge[i] == HyperText(values[i]);
    if bridge == ureq {
      forall i | 0 <= i < |values| ensures Some(HyperText(values[i])) == views.headerText(values[0]) {
        assert bridge[i] == ureq[i];
      }
      assert OneText(views, values);
    }
    if OneText(views, values) {
      assert values != [] ==> Some(HyperText(values[0])) == views.headerText(values[0]);
      assert bridge == ureq;
    }
  }
}
