/** The browser cookie helpers: reading one cookie out of `document.cookie`,
    and writing or expiring one. The cookie strings the helpers assign are
    given exactly; the browser's cookie store they act on is a list of
    name/value pairs, which the `document.cookie` getter renders as
    `name=value` pairs separated by `; `. */
module Cookies {
  import opened Optional
  import opened Strings

  /** The inner loop of the lookup: drop leading `' '` characters only
      (tabs and other white space stay). */
  function StripLeadingSpaces(c: string): (r: string)
    ensures r == [] || r[0] != ' '
    decreases |c|
  {
    if c != [] && c[0] == ' ' then StripLeadingSpaces(c[1..]) else c
  }

  /** Stripping only removes characters. */
  lemma {:induction false} StripKeepsChars(c: string, ch: char)
    requires ch in StripLeadingSpaces(c)
    ensures ch in c
    decreases |c|
  {
    if c != [] && c[0] == ' ' {
      StripKeepsChars(c[1..], ch);
    }
  }

  /** Exactly the leading spaces are removed: the result is a suffix of the
      segment, and everything cut off is a space. */
  lemma {:induction false} StripOnlyLeading(c: string)
    ensures var r := StripLeadingSpaces(c);
      |r| <= |c| && c[|c| - |r|..] == r && forall i :: 0 <= i < |c| - |r| ==> c[i] == ' '
    decreases |c|
  {
    if c != [] && c[0] == ' ' {
      StripOnlyLeading(c[1..]);
    }
  }

  /** A `;`-separated segment answers a lookup for `name` (which is `cname + "="`)
      when, once its leading spaces are gone, it starts with `name`. */
  predicate Matches(segment: string, name: string) {
    StartsWith(StripLeadingSpaces(segment), name)
  }

  /** What the lookup loop returns for the segments: the text after `name` in
      the first matching segment, or nothing. */
  function Lookup(segments: seq<string>, name: string): Option<string>
    decreases |segments|
  {
    if segments == [] then None
    else if Matches(segments[0], name) then Some(StripLeadingSpaces(segments[0])[|name|..])
    else Lookup(segments[1..], name)
  }

  const SameSite: string := "SameSite=Strict"
  const Secure: string := "Secure"
  const RootPath: string := "path=/"
  /** The attributes of a removed cookie: an expiry in 1970 and the root path. */
  const Expired: string := " expires=Thu, 01 Jan 1970 00:00:00 UTC"
  const SpacedRootPath: string := " path=/"

  /** The text `setCookie` assigns; the expiry date text is what the clock
      would give for now plus `expirationDays` days. A missing or zero day
      count is falsy and adds no expiry. */
  function SetCookieText(name: string, value: string, expirationDays: Option<int>, expiryUtc: string): string {
    var expiration := if expirationDays.Some? && expirationDays.value != 0 then ";expires=" + expiryUtc else "";
    name + "=" + value + ";" + SameSite + ";" + Secure + ";" + RootPath + expiration
  }

  /** The text `removeCookie` assigns: an empty value that expired in 1970. */
  function RemoveCookieText(cname: string): string {
    cname + "=" + ";" + Expired + ";" + SpacedRootPath
  }

  /** The browser's cookie store for the page's origin, in creation order
      (every cookie here has the root path, so that is the order the getter
      lists them in). */
  type Jar = seq<(string, string)>

  /** A name the browser stores as written and the getter renders back:
      non-empty, not starting with a space, with no `;` and no `=`. */
  predicate ValidName(n: string) {
    n != [] && n[0] != ' ' && ';' !in n && '=' !in n
  }

  predicate ValidJar(jar: Jar) {
    forall i :: 0 <= i < |jar| ==> ValidName(jar[i].0) && ';' !in jar[i].1
  }

  function Pair(e: (string, string)): string {
    e.0 + "=" + e.1
  }

  /** The pieces of the getter's text between its `;` separators. */
  function Pieces(jar: Jar): seq<string> {
    seq(|jar|, i requires 0 <= i < |jar| => (if i == 0 then "" else " ") + Pair(jar[i]))
  }

  /** The `document.cookie` getter: `name=value` pairs joined by `; `. */
  function Render(jar: Jar): string {
    Join(Pieces(jar), ';')
  }

  /** The stored value of the cookie called `name`. */
  function Find(jar: Jar, name: string): Option<string>
    decreases |jar|
  {
    if jar == [] then None
    else if jar[0].0 == name then Some(jar[0].1)
    else Find(jar[1..], name)
  }

  /** Storing a cookie replaces one of the same name in its place (it keeps
      the old creation time, section 5.3 of RFC 6265), or adds it last. */
  function Store(jar: Jar, name: string, value: string): Jar
    decreases |jar|
  {
    if jar == [] then [(name, value)]
    else if jar[0].0 == name then [(name, value)] + jar[1..]
    else [jar[0]] + Store(jar[1..], name, value)
  }

  /** An assignment whose expiry is in the past removes the cookie. */
  function Delete(jar: Jar, name: string): Jar
    decreases |jar|
  {
    if jar == [] then []
    else (if jar[0].0 == name then [] else [jar[0]]) + Delete(jar[1..], name)
  }

  /** The expiry `setCookie` writes is now plus `expirationDays` days, so it
      lies in the past exactly for a negative day count. */
  predicate ExpiresInPast(expirationDays: Option<int>) {
    expirationDays.Some? && expirationDays.value < 0
  }

  /** The store after `setCookie`. */
  function AfterSet(jar: Jar, name: string, value: string, expirationDays: Option<int>): Jar {
    if ExpiresInPast(expirationDays) then Delete(jar, name) else Store(jar, name, value)
  }

  /** `document` as far as the cookie helpers use it. Percent-decoding of the
      read text is the identity here. */
  class Document {
    var jar: Jar

    constructor (initial: Jar)
      ensures jar == initial
    {
      jar := initial;
    }

    /** What the `document.cookie` getter returns. */
    function Cookie(): string
      reads this
    {
      Render(jar)
    }

    /** `getCookie`: split on `;`, strip leading spaces of each segment, and
        return the rest of the first segment that starts with `cname=`. On a
        store of well-formed cookies that is the stored value of `cname`. */
    method GetCookie(cname: string) returns (r: Option<string>)
      ensures r == Lookup(Split(Cookie(), ';'), cname + "=")
      ensures ValidJar(jar) && ValidName(cname) ==> r == Find(jar, cname)
    {
      var name := cname + "=";
      var ca := Split(Cookie(), ';');
      var i := 0;
      while i < |ca|
        invariant 0 <= i <= |ca|
        invariant Lookup(ca, name) == Lookup(ca[i..], name)
      {
        var c := ca[i];
        while |c| > 0 && c[0] == ' '
          invariant StripLeadingSpaces(c) == StripLeadingSpaces(ca[i])
        {
          c := c[1..];
        }
        if StartsWith(c, name) {
          r := Some(c[|name|..]);
          JarLookup(jar, cname);
          return;
        }
        assert ca[i..][1..] == ca[i + 1..];
        i := i + 1;
      }
      r := None;
      JarLookup(jar, cname);
    }

    /** `setCookie`: the text assigned, and its effect on the store. */
    method SetCookie(name: string, value: string, expirationDays: Option<int>, expiryUtc: string) returns (written: string)
      modifies this
      ensures written == SetCookieText(name, value, expirationDays, expiryUtc)
      ensures jar == AfterSet(old(jar), name, value, expirationDays)
    {
      var expirationString := "";
      if expirationDays.Some? && expirationDays.value != 0 {
        expirationString := ";expires=" + expiryUtc;
      }
      written := name + "=" + value + ";" + SameSite + ";" + Secure + ";" + RootPath + expirationString;
      if expirationDays.Some? && expirationDays.value < 0 {
        jar := Delete(jar, name);
      } else {
        jar := Store(jar, name, value);
      }
    }

    /** `removeCookie`: the text assigned expired in 1970, so the cookie goes. */
    method RemoveCookie(cname: string) returns (written: string)
      modifies this
      ensures written == RemoveCookieText(cname)
      ensures jar == Delete(old(jar), cname)
    {
      written := cname + "=" + ";" + Expired + ";" + SpacedRootPath;
      jar := Delete(jar, cname);
    }
  }

  /** No segment matches exactly when the lookup gives nothing. */
  lemma {:induction false} LookupNone(segments: seq<string>, name: string)
    ensures Lookup(segments, name) == None <==> forall i :: 0 <= i < |segments| ==> !Matches(segments[i], name)
    decreases |segments|
  {
    if segments != [] {
      LookupNone(segments[1..], name);
      if !Matches(segments[0], name) {
        forall i | 1 <= i < |segments| ensures segments[i] == segments[1..][i - 1] { }
      }
    }
  }

  /** The earliest matching segment answers, with the text after `name`. */
  lemma {:induction false} LookupFirst(segments: seq<string>, name: string, i: nat)
    requires i < |segments| && Matches(segments[i], name)
    requires forall j :: 0 <= j < i ==> !Matches(segments[j], name)
    ensures Lookup(segments, name) == Some(StripLeadingSpaces(segments[i])[|name|..])
    decreases i
  {
    if i > 0 {
      assert !Matches(segments[0], name);
      LookupFirst(segments[1..], name, i - 1);
    }
  }

  /** A found value is the whole rest of a matching segment after `name`:
      only the leading spaces before the name are gone, trailing ones stay. */
  lemma {:induction false} LookupValue(segments: seq<string>, name: string, v: string)
    requires Lookup(segments, name) == Some(v)
    ensures exists i :: 0 <= i < |segments| && StripLeadingSpaces(segments[i]) == name + v
    decreases |segments|
  {
    if Matches(segments[0], name) {
      var c := StripLeadingSpaces(segments[0]);
      assert c == c[..|name|] + c[|name|..];
      assert StripLeadingSpaces(segments[0]) == name + v;
    } else {
      LookupValue(segments[1..], name, v);
      var i :| 0 <= i < |segments[1..]| && StripLeadingSpaces(segments[1..][i]) == name + v;
      assert segments[1..][i] == segments[i + 1];
    }
  }

  /** A value read from the cookie string never contains `;`. */
  lemma GetCookieNoSemicolon(cookie: string, cname: string, v: string)
    requires Lookup(Split(cookie, ';'), cname + "=") == Some(v)
    ensures ';' !in v
  {
    var segments := Split(cookie, ';');
    LookupValue(segments, cname + "=", v);
    var i :| 0 <= i < |segments| && StripLeadingSpaces(segments[i]) == cname + "=" + v;
    if ';' in v {
      StripKeepsChars(segments[i], ';');
    }
  }

  /** The whole `cname=` prefix is matched: a segment holding a cookie of
      another name (neither name containing `=`) never answers, so a cookie
      named `ab` does not answer a lookup for `a`. */
  lemma OtherNameNoMatch(segment: string, other: string, x: string, cname: string)
    requires StripLeadingSpaces(segment) == other + "=" + x
    requires '=' !in other && '=' !in cname && other != cname
    ensures !Matches(segment, cname + "=")
  {
    var c := other + "=" + x;
    var n := cname + "=";
    if |cname| < |other| {
      assert c[|cname|] == other[|cname|] != '=' == n[|cname|];
    } else if |cname| > |other| {
      assert c[|other|] == '=' != cname[|other|] == n[|other|];
    } else {
      assert c[..|other|] == other != cname == n[..|cname|];
    }
  }

  /** With no expiry, `setCookie` writes the value and exactly the three
      attributes `SameSite=Strict`, `Secure` and `path=/`. */
  lemma SetCookieSegments(name: string, value: string, days: Option<int>, expiryUtc: string)
    requires ';' !in name && ';' !in value
    requires days == None || days == Some(0)
    ensures Split(SetCookieText(name, value, days, expiryUtc), ';')
         == [name + "=" + value, SameSite, Secure, RootPath]
  {
    var nv := name + "=" + value;
    var secure := Secure + [';'] + RootPath;
    var attributes := SameSite + [';'] + secure;
    assert SetCookieText(name, value, days, expiryUtc) == nv + [';'] + attributes;
    SplitNoSep(RootPath, ';');
    SplitFirst(Secure, ';', RootPath);
    SplitFirst(SameSite, ';', secure);
    SplitFirst(nv, ';', attributes);
  }

  /** In a text that starts with `name=value;`, the lookup of the name
      answers with that value. */
  lemma FirstPairAnswers(name: string, value: string, rest: string)
    requires ';' !in name && ';' !in value
    requires name == [] || name[0] != ' '
    ensures Lookup(Split(name + "=" + value + [';'] + rest, ';'), name + "=") == Some(value)
  {
    var nv := name + "=" + value;
    SplitFirst(nv, ';', rest);
    var segments := Split(nv + [';'] + rest, ';');
    assert segments[0] == nv;
    assert StripLeadingSpaces(nv) == nv;
    assert nv[..|name + "="|] == name + "=";
    LookupFirst(segments, name + "=", 0);
    assert nv[|name + "="|..] == value;
  }

  /** The first pair of the text `setCookie` writes, which is the cookie the
      browser stores, carries exactly the name and the value, with or
      without an expiry. */
  lemma SetCookieTextPair(name: string, value: string, days: Option<int>, expiryUtc: string)
    requires ';' !in name && ';' !in value
    requires name == [] || name[0] != ' '
    ensures Lookup(Split(SetCookieText(name, value, days, expiryUtc), ';'), name + "=") == Some(value)
  {
    var expiration := if days.Some? && days.value != 0 then ";expires=" + expiryUtc else "";
    var secure := Secure + [';'] + (RootPath + expiration);
    var rest := SameSite + [';'] + secure;
    assert SetCookieText(name, value, days, expiryUtc) == name + "=" + value + [';'] + rest;
    FirstPairAnswers(name, value, rest);
  }

  /** The first pair of the text `removeCookie` writes names the cookie, with
      an empty value. */
  lemma RemoveCookieTextPair(cname: string)
    requires ';' !in cname
    requires cname == [] || cname[0] != ' '
    ensures Lookup(Split(RemoveCookieText(cname), ';'), cname + "=") == Some("")
  {
    var rest := Expired + ";" + SpacedRootPath;
    assert RemoveCookieText(cname) == cname + "=" + "" + [';'] + rest;
    FirstPairAnswers(cname, "", rest);
  }

  /** Stripping the getter's pieces leaves exactly the `name=value` pairs. */
  lemma PiecesStrip(jar: Jar, i: nat)
    requires ValidJar(jar) && i < |jar|
    ensures StripLeadingSpaces(Pieces(jar)[i]) == Pair(jar[i])
  {
    var p := Pair(jar[i]);
    assert p[0] == jar[i].0[0] != ' ';
    if i > 0 {
      assert Pieces(jar)[i] == " " + p;
      assert (" " + p)[1..] == p;
    }
  }

  /** Looking `name` up in segments that strip to the store's pairs finds its
      stored value. */
  lemma {:induction false} LookupPairs(segments: seq<string>, jar: Jar, name: string)
    requires |segments| == |jar| && ValidJar(jar) && ValidName(name)
    requires forall i :: 0 <= i < |jar| ==> StripLeadingSpaces(segments[i]) == Pair(jar[i])
    ensures Lookup(segments, name + "=") == Find(jar, name)
    decreases |jar|
  {
    if jar != [] {
      var n := name + "=";
      var p := Pair(jar[0]);
      if jar[0].0 == name {
        assert p[..|n|] == n;
        assert p[|n|..] == jar[0].1;
      } else {
        OtherNameNoMatch(segments[0], jar[0].0, jar[0].1, name);
        assert ValidJar(jar[1..]) by {
          forall i | 0 <= i < |jar[1..]| ensures ValidName(jar[1..][i].0) && ';' !in jar[1..][i].1 {
            assert jar[1..][i] == jar[i + 1];
          }
        }
        forall i | 0 <= i < |jar[1..]| ensures StripLeadingSpaces(segments[1..][i]) == Pair(jar[1..][i]) {
          assert segments[1..][i] == segments[i + 1] && jar[1..][i] == jar[i + 1];
        }
        LookupPairs(segments[1..], jar[1..], name);
      }
    }
  }

  /** What `getCookie` reads out of the getter's text is the stored value:
      none when no cookie has that name. */
  lemma JarLookup(jar: Jar, name: string)
    ensures ValidJar(jar) && ValidName(name) ==> Lookup(Split(Render(jar), ';'), name + "=") == Find(jar, name)
  {
    if ValidJar(jar) && ValidName(name) {
      if jar == [] {
        assert Split(Render(jar), ';') == [""];
      } else {
        var pieces := Pieces(jar);
        forall i | 0 <= i < |pieces| ensures ';' !in pieces[i] {
          assert ';' !in Pair(jar[i]);
        }
        SplitJoin(pieces, ';');
        forall i | 0 <= i < |jar| ensures StripLeadingSpaces(pieces[i]) == Pair(jar[i]) {
          PiecesStrip(jar, i);
        }
        LookupPairs(pieces, jar, name);
      }
    }
  }

  /** A stored cookie reads back its value; other cookies keep theirs. */
  lemma {:induction false} FindStore(jar: Jar, name: string, value: string, other: string)
    ensures Find(Store(jar, name, value), name) == Some(value)
    ensures other != name ==> Find(Store(jar, name, value), other) == Find(jar, other)
    decreases |jar|
  {
    if jar != [] && jar[0].0 != name {
      FindStore(jar[1..], name, value, other);
      assert Store(jar, name, value)[1..] == Store(jar[1..], name, value);
    }
  }

  /** A deleted cookie is gone; other cookies keep their values. */
  lemma {:induction false} FindDelete(jar: Jar, name: string, other: string)
    ensures Find(Delete(jar, name), name) == None
    ensures other != name ==> Find(Delete(jar, name), other) == Find(jar, other)
    decreases |jar|
  {
    if jar != [] {
      FindDelete(jar[1..], name, other);
      if jar[0].0 != name {
        assert Delete(jar, name)[1..] == Delete(jar[1..], name);
      } else {
        assert Delete(jar, name) == Delete(jar[1..], name);
      }
    }
  }

  /** Storing and deleting well-formed cookies keeps the store well-formed. */
  lemma {:induction false} StoreDeleteValid(jar: Jar, name: string, value: string)
    requires ValidJar(jar) && ValidName(name) && ';' !in value
    ensures ValidJar(Store(jar, name, value)) && ValidJar(Delete(jar, name))
    decreases |jar|
  {
    if jar != [] {
      assert ValidJar(jar[1..]) by {
        forall i | 0 <= i < |jar[1..]| ensures ValidName(jar[1..][i].0) && ';' !in jar[1..][i].1 {
          assert jar[1..][i] == jar[i + 1];
        }
      }
      StoreDeleteValid(jar[1..], name, value);
      var rest := Delete(jar[1..], name);
      var d := Delete(jar, name);
      if jar[0].0 != name {
        assert d == [jar[0]] + rest;
        forall i | 1 <= i < |d| ensures d[i] == rest[i - 1] { }
      } else {
        assert d == rest;
      }
      var s := Store(jar, name, value);
      if jar[0].0 != name {
        forall i | 1 <= i < |s| ensures s[i] == Store(jar[1..], name, value)[i - 1] { }
      } else {
        forall i | 1 <= i < |s| ensures s[i] == jar[i] { }
      }
    }
  }

  /** Round trip: after `setCookie` with an expiry that is not in the past,
      `getCookie` reads the value written, and every other cookie reads as
      before. */
  lemma SetThenGet(jar: Jar, name: string, value: string, days: Option<int>, other: string)
    requires ValidJar(jar) && ValidName(name) && ';' !in value && ValidName(other)
    requires !ExpiresInPast(days)
    ensures Lookup(Split(Render(AfterSet(jar, name, value, days)), ';'), name + "=") == Some(value)
    ensures other != name ==>
      Lookup(Split(Render(AfterSet(jar, name, value, days)), ';'), other + "=") == Lookup(Split(Render(jar), ';'), other + "=")
  {
    StoreDeleteValid(jar, name, value);
    FindStore(jar, name, value, other);
    JarLookup(Store(jar, name, value), name);
    JarLookup(Store(jar, name, value), other);
    JarLookup(jar, other);
  }

  /** `setCookie` with a negative day count writes an expiry in the past, so
      the cookie is gone and `getCookie` gives `null`. */
  lemma SetPastThenGet(jar: Jar, name: string, value: string, days: Option<int>)
    requires ValidJar(jar) && ValidName(name) && ';' !in value
    requires ExpiresInPast(days)
    ensures Lookup(Split(Render(AfterSet(jar, name, value, days)), ';'), name + "=") == None
  {
    StoreDeleteValid(jar, name, value);
    FindDelete(jar, name, name);
    JarLookup(Delete(jar, name), name);
  }

  /** After `removeCookie`, `getCookie` gives `null`, and every other cookie
      reads as before. */
  lemma RemoveThenGet(jar: Jar, name: string, other: string)
    requires ValidJar(jar) && ValidName(name) && ValidName(other)
    ensures Lookup(Split(Render(Delete(jar, name)), ';'), name + "=") == None
    ensures other != name ==>
      Lookup(Split(Render(Delete(jar, name)), ';'), other + "=") == Lookup(Split(Render(jar), ';'), other + "=")
  {
    StoreDeleteValid(jar, name, "");
    FindDelete(jar, name, other);
    JarLookup(Delete(jar, name), name);
    JarLookup(Delete(jar, name), other);
    JarLookup(jar, other);
  }
}
