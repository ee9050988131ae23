/** The three regular expressions of the field validator (index.tsx lines 78,
    93 and 115), written as predicates on the trimmed value. */
module Patterns {
  import opened Text

  // ---------------------------------------------------------------- email

  predicate IsAtomChar(c: char) { !IsSpace(c) && c != '@' }

  /** One or more characters of `[^\s@]`. */
  predicate IsAtom(s: string) {
    |s| > 0 && forall i :: 0 <= i < |s| ==> IsAtomChar(s[i])
  }

  /** `/^[^\s@]+@[^\s@]+\.[^\s@]+$/`: a local part, the only '@', and a
      domain with a '.' that is neither its first nor its last character. */
  predicate IsEmail(s: string) {
    var k := IndexOf(s, '@');
    k < |s| && IsAtom(s[..k]) && IsDomain(s[k + 1..])
  }

  predicate IsDomain(d: string) {
    |d| >= 3 && IsAtom(d) && '.' in d[1..|d| - 1]
  }

  /** The shape the regular expression describes, as a decomposition
      L '@' D1 '.' D2 into three runs of `[^\s@]`. */
  ghost predicate EmailShape(s: string) {
    exists i, j :: 0 < i && i + 1 < j && j + 1 < |s| && s[i] == '@' && s[j] == '.' &&
      IsAtom(s[..i]) && IsAtom(s[i + 1..j]) && IsAtom(s[j + 1..])
  }

  lemma EmailIffShape(s: string)
    ensures IsEmail(s) <==> EmailShape(s)
  {
    if IsEmail(s) { EmailHasShape(s); }
    if EmailShape(s) {
      var i, j :| 0 < i && i + 1 < j && j + 1 < |s| && s[i] == '@' && s[j] == '.' &&
        IsAtom(s[..i]) && IsAtom(s[i + 1..j]) && IsAtom(s[j + 1..]);
      ShapeIsEmail(s, i, j);
    }
  }

  lemma EmailHasShape(s: string)
    requires IsEmail(s)
    ensures EmailShape(s)
  {
    var k := IndexOf(s, '@');
    var d := s[k + 1..];
    var mid := d[1..|d| - 1];
    var m :| 0 <= m < |mid| && mid[m] == '.';
    var j := k + 2 + m;
    assert s[j] == d[m + 1] == '.';
    assert s[k + 1..j] == d[..m + 1];
    assert s[j + 1..] == d[m + 2..];
    var d1, d2 := d[..m + 1], d[m + 2..];
    forall t | 0 <= t < |d1| ensures IsAtomChar(d1[t]) { assert d1[t] == d[t]; }
    forall t | 0 <= t < |d2| ensures IsAtomChar(d2[t]) { assert d2[t] == d[m + 2 + t]; }
  }

  lemma ShapeIsEmail(s: string, i: nat, j: nat)
    requires 0 < i && i + 1 < j && j + 1 < |s| && s[i] == '@' && s[j] == '.'
    requires IsAtom(s[..i]) && IsAtom(s[i + 1..j]) && IsAtom(s[j + 1..])
    ensures IsEmail(s)
  {
    forall t | 0 <= t < i ensures s[t] != '@' { assert s[..i][t] == s[t]; }
    IndexOfFirst(s, '@', i);
    var d := s[i + 1..];
    assert d == s[i + 1..j] + ['.'] + s[j + 1..];
    forall t | 0 <= t < |d| ensures IsAtomChar(d[t]) {
      if t < j - i - 1 { assert d[t] == s[i + 1..j][t]; }
      else if t > j - i - 1 { assert d[t] == s[j + 1..][t - (j - i)]; }
    }
    assert d[1..|d| - 1][j - i - 2] == '.';
  }

  lemma EmailExampleAccepted()
    ensures IsEmail("a@b.com")
  {
    var s := "a@b.com";
    assert s[1] == '@' && s[3] == '.';
    assert s[..1] == "a" && s[2..3] == "b" && s[4..] == "com";
    ShapeIsEmail(s, 1, 3);
  }

  /** Without a '.' after the '@' there is no domain. */
  lemma EmailExampleNoDot()
    ensures !IsEmail("a@b")
  {
    assert IndexOf("a@b", '@') == 1;
  }

  /** White space is not allowed in the local part. */
  lemma EmailExampleSpace()
    ensures !IsEmail("a b@c.com")
  {
    var s := "a b@c.com";
    assert IndexOf(s, '@') == 3;
    assert s[..3][1] == ' ';
  }

  /** `\s` covers the no-break space too. */
  lemma EmailExampleNoBreakSpace()
    ensures !IsEmail("a\U{00A0}b@c.com")
  {
    var s := "a\U{00A0}b@c.com";
    assert IndexOf(s, '@') == 3;
    assert s[..3][1] == '\U{00A0}';
  }

  // ---------------------------------------------------------------- phone

  predicate IsPhoneChar(c: char) {
    IsDigit(c) || IsSpace(c) || c == '(' || c == ')' || c == '+' || c == '-'
  }

  /** `/^[\d\s()+-]+$/`. */
  predicate IsPhone(s: string) {
    |s| > 0 && forall i :: 0 <= i < |s| ==> IsPhoneChar(s[i])
  }

  lemma PhoneExamples()
    ensures IsPhone("+974 1234567")
    ensures IsPhone("+974\U{00A0}1234567")
    ensures !IsPhone("abc")
  {
    assert !IsPhoneChar("abc"[0]);
  }

  // ---------------------------------------------------------------- website

  /** `[\w-]`: the characters of a host label. */
  predicate IsHostChar(c: char) { IsWordChar(c) || c == '-' }

  /** `[\w- .\/?%&=]`: the characters allowed after the first '/'. */
  predicate IsPathChar(c: char) {
    IsWordChar(c) || c == '-' || c == ' ' || c == '.' || c == '/' || c == '?' ||
    c == '%' || c == '&' || c == '='
  }

  predicate IsLabel(l: string) {
    |l| > 0 && forall i :: 0 <= i < |l| ==> IsHostChar(l[i])
  }

  /** The optional `https?://` prefix, matched case-insensitively, removed. */
  function StripScheme(s: string): (r: string)
    ensures |r| <= |s| && r == s[|s| - |r|..]
  {
    if |s| >= 8 && Lower(s[..8]) == "https://" then s[8..]
    else if |s| >= 7 && Lower(s[..7]) == "http://" then s[7..]
    else s
  }

  /** `([\w-]+\.)+[\w-]+`: two or more labels joined by '.'. */
  predicate IsHost(h: string) {
    var labels := Split(h, '.');
    |labels| >= 2 && forall i :: 0 <= i < |labels| ==> IsLabel(labels[i])
  }

  /** `/^(https?:\/\/)?([\w-]+\.)+[\w-]+(\/[\w- .\/?%&=]*)?$/i`. The host
      ends at the first '/', where the optional path begins. */
  predicate IsUrl(s: string) {
    var rest := StripScheme(s);
    var k := IndexOf(rest, '/');
    IsHost(rest[..k]) && forall i :: k <= i < |rest| ==> IsPathChar(rest[i])
  }

  predicate IsPath(p: string) {
    p == [] || (p[0] == '/' && forall i :: 0 <= i < |p| ==> IsPathChar(p[i]))
  }

  /** The language of the regular expression: an optional scheme in any
      case, two or more labels joined by '.', and an optional path. */
  ghost predicate UrlLanguage(s: string) {
    exists scheme, labels, path :: IsUrlParts(scheme, labels, path) && s == scheme + Join(labels, ".") + path
  }

  predicate IsUrlParts(scheme: string, labels: seq<string>, path: string) {
    Lower(scheme) in {"", "http://", "https://"} &&
    |labels| >= 2 && (forall i :: 0 <= i < |labels| ==> IsLabel(labels[i])) && IsPath(path)
  }

  /** The website check accepts exactly the strings of the regular
      expression's language. */
  lemma UrlIffLanguage(s: string)
    ensures IsUrl(s) <==> UrlLanguage(s)
  {
    if IsUrl(s) {
      UrlHasParts(s);
    }
    if UrlLanguage(s) {
      var scheme, labels, path :| IsUrlParts(scheme, labels, path) && s == scheme + Join(labels, ".") + path;
      UrlAcceptsLanguage(scheme, labels, path);
    }
  }

  /** An accepted string splits into a scheme, labels and a path. */
  lemma UrlHasParts(s: string)
    requires IsUrl(s)
    ensures UrlLanguage(s)
  {
    var rest := StripScheme(s);
    var k := IndexOf(rest, '/');
    SchemeOf(s);
    PathOf(rest, k);
    assert s == s[..|s| - |rest|] + rest;
    Assemble(s, s[..|s| - |rest|], rest, rest[..k], rest[k..]);
  }

  lemma Assemble(s: string, scheme: string, rest: string, host: string, path: string)
    requires s == scheme + rest && rest == host + path
    requires Lower(scheme) in {"", "http://", "https://"}
    requires IsHost(host) && IsPath(path)
    ensures UrlLanguage(s)
  {
    JoinSplitDot(host);
    AppendParts(s, scheme, rest, host, path);
    HostLabels(host);
    InLanguage(s, scheme, Split(host, '.'), path);
  }

  lemma HostLabels(host: string)
    requires IsHost(host)
    ensures var labels := Split(host, '.');
      |labels| >= 2 && forall i :: 0 <= i < |labels| ==> IsLabel(labels[i])
  {
  }

  lemma InLanguage(s: string, scheme: string, labels: seq<string>, path: string)
    requires IsUrlParts(scheme, labels, path) && s == scheme + Join(labels, ".") + path
    ensures UrlLanguage(s)
  {
  }

  lemma JoinSplitDot(host: string)
    ensures Join(Split(host, '.'), ".") == host
  {
    JoinSplit(host, '.');
  }

  lemma AppendParts(s: string, scheme: string, rest: string, host: string, path: string)
    requires s == scheme + rest && rest == host + path
    ensures s == scheme + host + path
  {
  }

  /** What follows the host of an accepted rest is a path. */
  lemma PathOf(rest: string, k: nat)
    requires k <= |rest| && (k < |rest| ==> rest[k] == '/')
    requires forall i :: k <= i < |rest| ==> IsPathChar(rest[i])
    ensures IsPath(rest[k..]) && rest == rest[..k] + rest[k..]
  {
    var path := rest[k..];
    forall i | 0 <= i < |path| ensures IsPathChar(path[i]) {
      assert path[i] == rest[k + i];
    }
  }

  /** What StripScheme removes is empty or a scheme in some case. */
  lemma SchemeOf(s: string)
    ensures Lower(s[..|s| - |StripScheme(s)|]) in {"", "http://", "https://"}
  {
    if |s| >= 8 && Lower(s[..8]) == "https://" {
    } else if |s| >= 7 && Lower(s[..7]) == "http://" {
    } else {
      assert s[..0] == "";
    }
  }

  /** Every string of the regular expression's language is accepted:
      an optional scheme in any case, two or more labels, an optional path. */
  lemma UrlAcceptsLanguage(scheme: string, labels: seq<string>, path: string)
    requires Lower(scheme) in {"", "http://", "https://"}
    requires |labels| >= 2 && forall i :: 0 <= i < |labels| ==> IsLabel(labels[i])
    requires IsPath(path)
    ensures IsUrl(scheme + Join(labels, ".") + path)
  {
    JoinHostChars(labels);
    JoinIsHost(labels);
    HostWithPathIsUrl(scheme, Join(labels, "."), path);
  }

  lemma HostWithPathIsUrl(scheme: string, host: string, path: string)
    requires Lower(scheme) in {"", "http://", "https://"}
    requires forall i :: 0 <= i < |host| ==> IsHostChar(host[i]) || host[i] == '.'
    requires IsHost(host) && IsPath(path)
    ensures IsUrl(scheme + host + path)
  {
    var rest := host + path;
    assert scheme + host + path == scheme + rest;
    HostPathHasNoColon(host, path);
    StripSchemeOf(scheme, rest);
    HostEndsAtSlash(host, path);
    UrlFromParts(scheme + rest, host, path);
  }

  lemma JoinIsHost(labels: seq<string>)
    requires |labels| >= 2 && forall i :: 0 <= i < |labels| ==> IsLabel(labels[i])
    ensures IsHost(Join(labels, "."))
  {
    forall l | 0 <= l < |labels| ensures '.' !in labels[l] {
      LabelLacksDot(labels[l]);
    }
    SplitJoin(labels, '.');
    assert "." == ['.'];
    assert Split(Join(labels, "."), '.') == labels;
  }

  lemma LabelLacksDot(l: string)
    requires IsLabel(l)
    ensures '.' !in l
  {
    forall i | 0 <= i < |l| ensures l[i] != '.' {
      assert IsHostChar(l[i]);
    }
  }

  lemma UrlFromParts(s: string, host: string, path: string)
    requires StripScheme(s) == host + path
    requires IndexOf(host + path, '/') == |host| && (host + path)[..|host|] == host
    requires IsHost(host) && IsPath(path)
    ensures IsUrl(s)
  {
    var rest := host + path;
    forall i | |host| <= i < |rest| ensures IsPathChar(rest[i]) {
      assert rest[i] == path[i - |host|];
    }
  }

  lemma HostPathHasNoColon(host: string, path: string)
    requires forall i :: 0 <= i < |host| ==> IsHostChar(host[i]) || host[i] == '.'
    requires IsPath(path)
    ensures ':' !in host + path
  {
    var rest := host + path;
    forall i | 0 <= i < |rest| ensures rest[i] != ':' {
      if i < |host| { assert rest[i] == host[i]; } else { assert rest[i] == path[i - |host|]; }
    }
  }

  lemma StripSchemeOf(scheme: string, rest: string)
    requires Lower(scheme) in {"", "http://", "https://"}
    requires ':' !in rest
    ensures StripScheme(scheme + rest) == rest
  {
    if Lower(scheme) == "" {
      assert scheme + rest == rest;
      NoSchemeStripped(rest);
    } else if Lower(scheme) == "http://" {
      HttpStripped(scheme, rest);
    } else {
      HttpsStripped(scheme, rest);
    }
  }

  /** Lower-casing cannot produce a string that differs from it at `k`. */
  lemma LowerDiffersAt(x: string, y: string, k: nat)
    requires k < |x| && k < |y| && LowerChar(x[k]) != y[k]
    ensures Lower(x) != y
  {
    assert Lower(x)[k] == LowerChar(x[k]);
  }

  lemma NoSchemeStripped(rest: string)
    requires ':' !in rest
    ensures StripScheme(rest) == rest
  {
    if |rest| >= 7 {
      assert rest[..7][4] == rest[4];
      LowerDiffersAt(rest[..7], "http://", 4);
    }
    if |rest| >= 8 {
      assert rest[..8][5] == rest[5];
      LowerDiffersAt(rest[..8], "https://", 5);
    }
  }

  lemma HttpStripped(scheme: string, rest: string)
    requires Lower(scheme) == "http://"
    ensures StripScheme(scheme + rest) == rest
  {
    var s := scheme + rest;
    assert s[..7] == scheme && s[7..] == rest;
    if |s| >= 8 {
      assert s[..8][4] == scheme[4];
      assert LowerChar(scheme[4]) == ':';
      LowerDiffersAt(s[..8], "https://", 4);
    }
  }

  lemma HttpsStripped(scheme: string, rest: string)
    requires Lower(scheme) == "https://"
    ensures StripScheme(scheme + rest) == rest
  {
    var s := scheme + rest;
    assert s[..8] == scheme && s[8..] == rest;
  }

  lemma HostEndsAtSlash(host: string, path: string)
    requires forall i :: 0 <= i < |host| ==> IsHostChar(host[i]) || host[i] == '.'
    requires IsPath(path)
    ensures IndexOf(host + path, '/') == |host|
    ensures (host + path)[..|host|] == host
  {
    var rest := host + path;
    forall i | 0 <= i < |host| ensures rest[i] != '/' { assert rest[i] == host[i]; }
    if path == [] {
      assert rest == host;
      assert '/' !in rest;
    } else {
      IndexOfFirst(rest, '/', |host|);
    }
  }

  /** A joined host holds only label characters and '.'. */
  lemma {:induction false} JoinHostChars(labels: seq<string>)
    requires forall i :: 0 <= i < |labels| ==> IsLabel(labels[i])
    ensures forall i :: 0 <= i < |Join(labels, ".")| ==>
      IsHostChar(Join(labels, ".")[i]) || Join(labels, ".")[i] == '.'
  {
    if |labels| > 1 {
      JoinHostChars(labels[1..]);
      var rest := Join(labels[1..], ".");
      var j := Join(labels, ".");
      assert j == labels[0] + "." + rest;
      forall i | 0 <= i < |j| ensures IsHostChar(j[i]) || j[i] == '.' {
        if i < |labels[0]| { assert j[i] == labels[0][i]; }
        else if i > |labels[0]| { assert j[i] == rest[i - |labels[0]| - 1]; }
      }
    }
  }

  /** A host of two labels, with any scheme and path. */
  lemma TwoLabelUrl(scheme: string, a: string, b: string, path: string)
    requires Lower(scheme) in {"", "http://", "https://"}
    requires IsLabel(a) && IsLabel(b) && IsPath(path)
    ensures IsUrl(scheme + (a + "." + b) + path)
  {
    var labels := [a, b];
    assert labels[1..] == [b];
    assert Join(labels, ".") == a + "." + b;
    UrlAcceptsLanguage(scheme, labels, path);
  }

  lemma UrlExampleBareHost()
    ensures IsUrl("example.com")
  {
    var a, b := "example", "com";
    assert IsLabel(a) && IsLabel(b);
    assert Lower("") == "";
    TwoLabelUrl("", a, b, "");
    assert "" + (a + "." + b) + "" == "example.com";
  }

  /** The host needs two labels, so a value without a '.' never matches. */
  lemma NoDotIsNotUrl(s: string)
    requires '.' !in s
    ensures !IsUrl(s)
  {
    var rest := StripScheme(s);
    var h := rest[..IndexOf(rest, '/')];
    forall i | 0 <= i < |h| ensures h[i] != '.' {
      assert h[i] == s[|s| - |rest| + i];
    }
    assert IndexOf(h, '.') == |h|;
    assert Split(h, '.') == [h];
  }

  lemma UrlExampleRejected()
    ensures !IsUrl("not a url")
  {
    var s := "not a url";
    assert '.' !in s by {
      assert s == ['n', 'o', 't', ' ', 'a', ' ', 'u', 'r', 'l'];
    }
    NoDotIsNotUrl(s);
  }
}
