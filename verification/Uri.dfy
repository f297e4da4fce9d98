/** The URI parser and printer. */
module Uri {
  datatype Parts = Parts(scheme: string, user: string, password: string, host: string, port: int,
                         path: string, query: string, fragment: string)

  const EMPTY := Parts("", "", "", "", 0, "", "", "")

  // ---------------------------------------------------------------------------
  // Searching
  // ---------------------------------------------------------------------------

  /** The first position of a character of `cs`, or the length of `s` if there is none. */
  function Find(s: string, cs: set<char>): (i: nat)
    ensures i <= |s|
  {
    if s == "" || s[0] in cs then 0 else 1 + Find(s[1..], cs)
  }

  predicate Without(s: string, cs: set<char>) {
    forall i :: 0 <= i < |s| ==> s[i] !in cs
  }

  lemma {:induction false} FindAfter(s: string, rest: string, cs: set<char>)
    requires Without(s, cs) && (rest == "" || rest[0] in cs)
    ensures Find(s + rest, cs) == |s|
    ensures (s + rest)[..|s|] == s && (s + rest)[|s|..] == rest
  {
    if s == "" {
      assert s + rest == rest;
    } else {
      assert (s + rest)[1..] == s[1..] + rest;
      FindAfter(s[1..], rest, cs);
    }
  }

  lemma FindNothing(s: string, cs: set<char>)
    requires Without(s, cs)
    ensures Find(s, cs) == |s|
  {
    assert s + "" == s;
    FindAfter(s, "", cs);
  }

  /** What stands before and after the first character of `cs`; everything and nothing if
      there is none. */
  function Before(s: string, cs: set<char>): string {
    s[..Find(s, cs)]
  }

  function Behind(s: string, cs: set<char>): string {
    if Find(s, cs) < |s| then s[Find(s, cs) + 1..] else ""
  }

  lemma SplitAt(s: string, c: char, rest: string)
    requires Without(s, {c})
    ensures var t := s + ([c] + rest); Find(t, {c}) < |t| && Before(t, {c}) == s && Behind(t, {c}) == rest
  {
    FindAfter(s, [c] + rest, {c});
    assert (s + ([c] + rest))[|s| + 1..] == ([c] + rest)[1..];
  }

  lemma NoSplit(s: string, c: char)
    requires Without(s, {c})
    ensures Find(s, {c}) == |s| && Before(s, {c}) == s && Behind(s, {c}) == ""
  {
    FindNothing(s, {c});
  }

  // ---------------------------------------------------------------------------
  // Numbers
  // ---------------------------------------------------------------------------

  predicate IsDigit(c: char) {
    '0' <= c <= '9'
  }

  function DigitChar(d: nat): (c: char)
    requires d < 10
    ensures IsDigit(c) && c as int - '0' as int == d
  {
    ('0' as int + d) as char
  }

  /** `std::to_string` of a number that is not negative. */
  function Decimal(n: nat): (r: string)
    ensures r != ""
    ensures forall i :: 0 <= i < |r| ==> IsDigit(r[i])
  {
    if n < 10 then [DigitChar(n)] else Decimal(n / 10) + [DigitChar(n % 10)]
  }

  function IntText(n: int): string {
    if n < 0 then "-" + Decimal(-n) else Decimal(n)
  }

  function DigitsValue(s: string, acc: nat): nat {
    if s == "" || !IsDigit(s[0]) then acc
    else DigitsValue(s[1..], 10 * acc + (s[0] as int - '0' as int))
  }

  /** `std::atoi`: white space, a sign, and digits up to the first other character. */
  function Atoi(s: string): int {
    if s == "" then 0
    else if s[0] == ' ' || '\t' <= s[0] <= '\r' then Atoi(s[1..])
    else if s[0] == '-' then -(DigitsValue(s[1..], 0) as int)
    else if s[0] == '+' then DigitsValue(s[1..], 0)
    else DigitsValue(s, 0)
  }

  lemma {:induction false} DigitsValueSplit(s: string, d: char, acc: nat)
    requires IsDigit(d) && forall i :: 0 <= i < |s| ==> IsDigit(s[i])
    ensures DigitsValue(s + [d], acc) == 10 * DigitsValue(s, acc) + (d as int - '0' as int)
    decreases |s|
  {
    if s == "" {
      assert s + [d] == [d] && [d][1..] == "";
    } else {
      assert (s + [d])[1..] == s[1..] + [d];
      DigitsValueSplit(s[1..], d, 10 * acc + (s[0] as int - '0' as int));
    }
  }

  lemma {:induction false} DecimalValue(n: nat)
    ensures DigitsValue(Decimal(n), 0) == n
  {
    if n < 10 {
      assert [DigitChar(n)][1..] == "";
    } else {
      DecimalValue(n / 10);
      DigitsValueSplit(Decimal(n / 10), DigitChar(n % 10), 0);
    }
  }

  /** A printed number is read back. */
  lemma AtoiDecimal(n: nat)
    ensures Atoi(Decimal(n)) == n
  {
    DecimalValue(n);
    assert IsDigit(Decimal(n)[0]);
  }

  // ---------------------------------------------------------------------------
  // parse
  // ---------------------------------------------------------------------------

  function ParseUserinfo(u: Parts, s: string): Parts {
    if Find(s, {':'}) < |s| then u.(user := Before(s, {':'}), password := Behind(s, {':'}))
    else u.(user := s)
  }

  function ParseHostport(u: Parts, s: string): Parts {
    if s == "" then u
    else if s[0] == '[' then
      var inner := s[1..];
      var close := Find(inner, {']'});
      if close == |inner| then u
      else
        var tail := inner[close..];
        var host := u.(host := inner[..close]);
        if Find(tail, {':'}) < |tail| then host.(port := Atoi(Behind(tail, {':'}))) else host
    else if Find(s, {':'}) < |s| then u.(host := Before(s, {':'}), port := Atoi(Behind(s, {':'})))
    else u.(host := s)
  }

  function ParseAuthority(u: Parts, s: string): Parts {
    if Find(s, {'@'}) < |s| then ParseHostport(ParseUserinfo(u, Before(s, {'@'})), Behind(s, {'@'}))
    else ParseHostport(u, s)
  }

  /** The path, query and fragment; the fragment is cut off first. */
  function ParseRest(u: Parts, s: string): Parts {
    var front := Before(s, {'#'});
    u.(fragment := Behind(s, {'#'}), query := Behind(front, {'?'}), path := Before(front, {'?'}))
  }

  function Parse(s: string): Parts {
    if Find(s, {':'}) == |s| then ParseRest(EMPTY, s)
    else
      var u := EMPTY.(scheme := Before(s, {':'}));
      var rest := Behind(s, {':'});
      if |rest| >= 2 && rest[0] == '/' && rest[1] == '/' then
        var body := rest[2..];
        var end := Find(body, {'/', '?', '#'});
        ParseRest(ParseAuthority(u, body[..end]), body[end..])
      else u.(path := rest)
  }

  // ---------------------------------------------------------------------------
  // to_string
  // ---------------------------------------------------------------------------

  predicate IsDefaultPort(u: Parts) {
    if u.port == 0 then true
    else if u.scheme == "http" || u.scheme == "ws" then u.port == 8080
    else if u.scheme == "https" || u.scheme == "wss" then u.port == 443
    else false
  }

  function SchemeText(u: Parts): string {
    if u.scheme == "" then ""
    else u.scheme + ([':'] + if u.host != "" || u.port > 0 || u.user != "" then "//" else "")
  }

  function UserText(u: Parts): string {
    if u.user == "" then ""
    else if u.password == "" then u.user + ['@']
    else u.user + ([':'] + u.password) + ['@']
  }

  function HostText(u: Parts): string {
    if Find(u.host, {':'}) < |u.host| then ['['] + u.host + [']'] else u.host
  }

  function PortText(u: Parts): string {
    if IsDefaultPort(u) then "" else [':'] + IntText(u.port)
  }

  function PathText(u: Parts, before: string): string {
    if u.path != "" && before != "" && u.path[0] != '/' && u.host != "" then "/" + u.path else u.path
  }

  function QueryText(u: Parts): string {
    if u.query == "" then "" else ['?'] + u.query
  }

  function FragmentText(u: Parts): string {
    if u.fragment == "" then "" else ['#'] + u.fragment
  }

  function ToString(u: Parts): string {
    var front := SchemeText(u) + (UserText(u) + (HostText(u) + PortText(u)));
    front + (PathText(u, front) + QueryText(u) + FragmentText(u))
  }

  // ---------------------------------------------------------------------------
  // The class
  // ---------------------------------------------------------------------------

  class Uri {
    var scheme: string
    var user: string
    var password: string
    var host: string
    var port: int
    var path: string
    var query: string
    var fragment: string

    function Value(): Parts
      reads this
    {
      Parts(scheme, user, password, host, port, path, query, fragment)
    }

    constructor (s: string)
      ensures Value() == Parse(s)
    {
      new;
      ParseFrom(s);
    }

    method Clear()
      modifies this
      ensures Value() == EMPTY
    {
      scheme, user, password, host, port, path, query, fragment := "", "", "", "", 0, "", "", "";
    }

    /** `parse`. */
    method ParseFrom(s: string)
      modifies this
      ensures Value() == Parse(s) && IsUri(Value(), s)
    {
      ParseIsTheFormat(Parse(s), s);
      hide IsUri;
      Clear();
      var pos := Position(s, {':'});
      if pos < |s| {
        scheme := s[..pos];
        var rest := s[pos + 1..];
        if |rest| >= 2 && rest[0] == '/' && rest[1] == '/' {
          var body := rest[2..];
          var end := Position(body, {'/', '?', '#'});
          SetAuthority(body[..end]);
          SetRest(body[end..]);
        } else {
          path := rest;
        }
      } else {
        SetRest(s);
      }
    }

    method SetRest(s: string)
      modifies `path, `query, `fragment
      ensures Value() == ParseRest(old(Value()), s)
    {
      var remaining := s;
      var hash := Position(s, {'#'});
      fragment := if hash < |s| then s[hash + 1..] else "";
      remaining := remaining[..hash];
      var question := Position(remaining, {'?'});
      query := if question < |remaining| then remaining[question + 1..] else "";
      path := remaining[..question];
    }

    /** `parse_authority`. */
    method SetAuthority(s: string)
      modifies `user, `password, `host, `port
      ensures Value() == ParseAuthority(old(Value()), s)
    {
      var at := Position(s, {'@'});
      if at < |s| {
        SetUserinfo(s[..at]);
        SetHostport(s[at + 1..]);
      } else {
        SetHostport(s);
      }
    }

    /** `parse_userinfo`. */
    method SetUserinfo(s: string)
      modifies `user, `password
      ensures Value() == ParseUserinfo(old(Value()), s)
    {
      var colon := Position(s, {':'});
      if colon < |s| {
        user := s[..colon];
        password := s[colon + 1..];
      } else {
        user := s;
      }
    }

    /** `parse_hostport`. */
    method SetHostport(s: string)
      modifies `host, `port
      ensures Value() == ParseHostport(old(Value()), s)
    {
      if s == "" {
        return;
      }
      if s[0] == '[' {
        var inner := s[1..];
        var close := Position(inner, {']'});
        if close < |inner| {
          host := inner[..close];
          var tail := inner[close..];
          var colon := Position(tail, {':'});
          if colon < |tail| {
            port := Atoi(tail[colon + 1..]);
          }
        }
      } else {
        var colon := Position(s, {':'});
        host := s[..colon];
        if colon < |s| {
          port := Atoi(s[colon + 1..]);
        }
      }
    }

    /** `find` and `find_first_of`. */
    static method Position(s: string, cs: set<char>) returns (i: nat)
      ensures i == Find(s, cs)
    {
      i := 0;
      assert s[0..] == s;
      while i < |s| && s[i] !in cs
        invariant i <= |s| && Find(s, cs) == i + Find(s[i..], cs)
      {
        assert s[i..][1..] == s[i + 1..];
        i := i + 1;
      }
    }
  }

  // ---------------------------------------------------------------------------
  // Round trip
  // ---------------------------------------------------------------------------

  const DELIMITERS: set<char> := {'/', '?', '#'}

  /** A hierarchical URI whose components can be told apart where they stand. */
  predicate WellFormed(u: Parts) {
    && u.scheme != "" && Without(u.scheme, {':'})
    && (u.host != "" || u.port > 0 || u.user != "")
    && Without(u.user, DELIMITERS + {'@', ':'}) && Without(u.password, DELIMITERS + {'@'})
    && (u.user == "" ==> u.password == "")
    && Without(u.host, DELIMITERS + {'@'})
    && (if Find(u.host, {':'}) < |u.host| then Without(u.host, {']'}) else u.host == "" || u.host[0] != '[')
    && 0 <= u.port
    && (u.path == "" || u.path[0] == '/') && Without(u.path, {'?', '#'})
    && Without(u.query, {'#'})
  }

  lemma UserinfoRoundTrip(u: Parts, blank: Parts)
    requires WellFormed(u) && u.user != "" && blank.user == "" && blank.password == ""
    ensures var s := if u.password == "" then u.user else u.user + ([':'] + u.password);
      ParseUserinfo(blank, s) == blank.(user := u.user, password := u.password)
  {
    if u.password == "" {
      NoSplit(u.user, ':');
    } else {
      SplitAt(u.user, ':', u.password);
    }
  }

  /** What the port of a URI is after it was printed and parsed. */
  function KeptPort(u: Parts): int {
    if IsDefaultPort(u) then 0 else u.port
  }

  /** Behind the closing bracket. */
  lemma BracketTail(u: Parts)
    requires 0 <= u.port
    ensures var tail := [']'] + PortText(u);
      if IsDefaultPort(u) then Find(tail, {':'}) == |tail|
      else Find(tail, {':'}) < |tail| && Behind(tail, {':'}) == IntText(u.port)
  {
    var tail := [']'] + PortText(u);
    if IsDefaultPort(u) {
      NoSplit(tail, ':');
    } else {
      assert tail == [']'] + ([':'] + IntText(u.port));
      SplitAt([']'], ':', IntText(u.port));
    }
  }

  lemma ParseBracketed(blank: Parts, host: string, tail: string)
    requires Without(host, {']'}) && tail != "" && tail[0] == ']'
    ensures ParseHostport(blank, ['['] + (host + tail)) ==
      if Find(tail, {':'}) < |tail| then blank.(host := host, port := Atoi(Behind(tail, {':'})))
      else blank.(host := host)
  {
    hide Behind, Atoi;
    var s := ['['] + (host + tail);
    assert s[0] == '[' && s[1..] == host + tail;
    FindAfter(host, tail, {']'});
  }

  /** A host with colons stands in brackets. */
  lemma BracketedRoundTrip(u: Parts, blank: Parts)
    requires WellFormed(u) && blank.host == "" && blank.port == 0 && Find(u.host, {':'}) < |u.host|
    ensures ParseHostport(blank, HostText(u) + PortText(u)) == blank.(host := u.host, port := KeptPort(u))
  {
    hide Find, ParseHostport, Behind, Without, Atoi, Decimal;
    var tail := [']'] + PortText(u);
    if u.port > 0 { AtoiDecimal(u.port); }
    BracketTail(u);
    assert HostText(u) + PortText(u) == ['['] + (u.host + tail);
    ParseBracketed(blank, u.host, tail);
  }

  lemma HostportRoundTrip(u: Parts, blank: Parts)
    requires WellFormed(u) && blank.host == "" && blank.port == 0
    ensures ParseHostport(blank, HostText(u) + PortText(u)) == blank.(host := u.host, port := KeptPort(u))
  {
    if Find(u.host, {':'}) < |u.host| {
      BracketedRoundTrip(u, blank);
    } else {
      if u.port > 0 { AtoiDecimal(u.port); }
      PlainHost(u.host);
      if IsDefaultPort(u) {
        assert HostText(u) + PortText(u) == u.host;
      } else {
        SplitAt(u.host, ':', IntText(u.port));
      }
    }
  }

  lemma {:induction false} PlainHost(host: string)
    requires Find(host, {':'}) == |host|
    ensures Without(host, {':'})
    decreases |host|
  {
    if host != "" {
      PlainHost(host[1..]);
      forall i | 0 <= i < |host|
        ensures host[i] !in {':'}
      {
        assert i > 0 ==> host[i] == host[1..][i - 1];
      }
    }
  }

  lemma HostportClean(u: Parts)
    requires WellFormed(u)
    ensures Without(HostText(u) + PortText(u), DELIMITERS + {'@'})
  {
    if !IsDefaultPort(u) {
      assert forall i :: 0 <= i < |IntText(u.port)| ==> IsDigit(IntText(u.port)[i]);
    }
  }

  lemma AuthorityClean(u: Parts)
    requires WellFormed(u)
    ensures Without(UserText(u) + (HostText(u) + PortText(u)), DELIMITERS)
  {
    HostportClean(u);
    hide Find, HostText, PortText;
  }

  /** User and password before the first '@'. */
  lemma UserSplits(u: Parts, hostport: string)
    requires WellFormed(u) && u.user != ""
    ensures var info := if u.password == "" then u.user else u.user + ([':'] + u.password);
      var s := UserText(u) + hostport;
      Find(s, {'@'}) < |s| && Before(s, {'@'}) == info && Behind(s, {'@'}) == hostport
  {
    var info := if u.password == "" then u.user else u.user + ([':'] + u.password);
    assert UserText(u) + hostport == info + (['@'] + hostport);
    SplitAt(info, '@', hostport);
  }

  lemma AuthorityRoundTrip(u: Parts, blank: Parts)
    requires WellFormed(u) && blank.host == "" && blank.port == 0 && blank.user == "" && blank.password == ""
    ensures var s := UserText(u) + (HostText(u) + PortText(u));
      && ParseAuthority(blank, s) == blank.(user := u.user, password := u.password, host := u.host, port := KeptPort(u))
      && Without(s, DELIMITERS)
  {
    hide Find, ParseHostport, ParseUserinfo, HostText, PortText, KeptPort;
    AuthorityClean(u);
    var hostport := HostText(u) + PortText(u);
    if u.user == "" {
      assert UserText(u) + hostport == hostport;
      HostportClean(u);
      NoSplit(hostport, '@');
      HostportRoundTrip(u, blank);
    } else {
      UserSplits(u, hostport);
      UserinfoRoundTrip(u, blank);
      HostportRoundTrip(u, blank.(user := u.user, password := u.password));
    }
  }

  lemma RestRoundTrip(u: Parts, blank: Parts)
    requires Without(u.path, {'?', '#'}) && Without(u.query, {'#'})
    ensures ParseRest(blank, u.path + QueryText(u) + FragmentText(u)) ==
      blank.(path := u.path, query := u.query, fragment := u.fragment)
  {
    var front := u.path + QueryText(u);
    if u.fragment == "" {
      assert front + FragmentText(u) == front;
      NoSplit(front, '#');
    } else {
      SplitAt(front, '#', u.fragment);
    }
    if u.query == "" {
      assert front == u.path;
      NoSplit(u.path, '?');
    } else {
      SplitAt(u.path, '?', u.query);
    }
  }

  /** The main result: printed and parsed, a well-formed URI keeps every component, but a
      default port becomes no port. */
  lemma ParseOfToString(u: Parts)
    requires WellFormed(u)
    ensures Parse(ToString(u)) == u.(port := KeptPort(u))
  {
    var authority, rest := UserText(u) + (HostText(u) + PortText(u)), u.path + QueryText(u) + FragmentText(u);
    var blank := EMPTY.(scheme := u.scheme);
    TextIs(u, authority, rest);
    AuthorityRoundTrip(u, blank);
    ParseHierarchical(u.scheme, authority, rest);
    RestRoundTrip(u, ParseAuthority(blank, authority));
  }

  lemma TextIs(u: Parts, authority: string, rest: string)
    requires WellFormed(u)
    requires authority == UserText(u) + (HostText(u) + PortText(u)) && rest == u.path + QueryText(u) + FragmentText(u)
    ensures ToString(u) == u.scheme + ([':'] + ("//" + (authority + rest)))
    ensures rest == "" || rest[0] in DELIMITERS
  {
    assert PathText(u, SchemeText(u) + authority) == u.path;
    assert SchemeText(u) == u.scheme + ([':'] + "//");
    RestStarts(u.path, QueryText(u), FragmentText(u));
    Rearranged(u.scheme, authority, rest);
  }

  lemma Rearranged(scheme: string, authority: string, rest: string)
    ensures (scheme + ([':'] + "//")) + authority + rest == scheme + ([':'] + ("//" + (authority + rest)))
  {
  }

  lemma RestStarts(path: string, query: string, fragment: string)
    requires path == "" || path[0] == '/'
    requires query == "" || query[0] == '?'
    requires fragment == "" || fragment[0] == '#'
    ensures path + query + fragment == "" || (path + query + fragment)[0] in DELIMITERS
  {
  }

  lemma ParseHierarchical(scheme: string, authority: string, rest: string)
    requires Without(scheme, {':'}) && Without(authority, DELIMITERS) && (rest == "" || rest[0] in DELIMITERS)
    ensures Parse(scheme + ([':'] + ("//" + (authority + rest))))
      == ParseRest(ParseAuthority(EMPTY.(scheme := scheme), authority), rest)
  {
    SplitAt(scheme, ':', "//" + (authority + rest));
    assert ("//" + (authority + rest))[2..] == authority + rest;
    FindAfter(authority, rest, DELIMITERS);
  }

  /** So it comes back unchanged exactly if it has no port or one that is printed. */
  lemma UnchangedIffPortIsPrinted(u: Parts)
    requires WellFormed(u)
    ensures Parse(ToString(u)) == u <==> u.port == 0 || !IsDefaultPort(u)
  {
    ParseOfToString(u);
  }

  /** The default port of http is 8080 here, so that port is lost and port 80 is kept. */
  lemma HttpDefaultIsNotEighty(host: string)
    requires host != "" && Without(host, DELIMITERS + {'@', ':'}) && host[0] != '['
    ensures var u := EMPTY.(scheme := "http", host := host);
      Parse(ToString(u.(port := 8080))).port == 0 && Parse(ToString(u.(port := 80))).port == 80
  {
    var u := EMPTY.(scheme := "http", host := host);
    FindNothing(host, {':'});
    ParseOfToString(u.(port := 8080));
    ParseOfToString(u.(port := 80));
  }

  // ---------------------------------------------------------------------------
  // Every text
  // ---------------------------------------------------------------------------

  /** `s` is `a`, the first `c` there is, and `b`. */
  ghost predicate Cut(s: string, c: char, a: string, b: string) {
    s == a + ([c] + b) && Without(a, {c})
  }

  lemma {:induction false} FindStops(s: string, cs: set<char>)
    ensures Without(s[..Find(s, cs)], cs) && (Find(s, cs) < |s| ==> s[Find(s, cs)] in cs)
    decreases |s|
  {
    if s != "" && s[0] !in cs {
      FindStops(s[1..], cs);
      var n := Find(s[1..], cs);
      assert s[..n + 1] == [s[0]] + s[1..][..n];
    }
  }

  lemma CutIsOnlyThere(s: string, c: char, a: string, b: string)
    requires Cut(s, c, a, b)
    ensures !Without(s, {c}) && a == Before(s, {c}) && b == Behind(s, {c})
  {
    SplitAt(a, c, b);
    assert s[|a|] == c;
  }

  lemma FindIsInside(s: string, c: char)
    requires !Without(s, {c})
    ensures Find(s, {c}) < |s| && s[Find(s, {c})] == c && Without(s[..Find(s, {c})], {c})
  {
    FindStops(s, {c});
    assert s[..|s|] == s;
  }

  lemma Pieces(s: string, n: nat)
    requires n < |s|
    ensures s == s[..n] + ([s[n]] + s[n + 1..])
  {
  }

  lemma CutThere(s: string, c: char)
    requires !Without(s, {c})
    ensures Find(s, {c}) < |s| && Cut(s, c, Before(s, {c}), Behind(s, {c}))
  {
    hide Find, Without;
    FindIsInside(s, c);
    Pieces(s, Find(s, {c}));
  }

  /** Searching for a character cuts the text there, and nowhere else. */
  lemma CutIsFind(s: string, c: char)
    ensures Without(s, {c}) <==> Find(s, {c}) == |s|
    ensures Without(s, {c}) ==> Before(s, {c}) == s && Behind(s, {c}) == ""
    ensures !Without(s, {c}) ==> Cut(s, c, Before(s, {c}), Behind(s, {c}))
    ensures forall a, b :: Cut(s, c, a, b) ==> !Without(s, {c}) && a == Before(s, {c}) && b == Behind(s, {c})
  {
    hide Cut, Before, Behind, Find, Without;
    if Without(s, {c}) {
      NoSplit(s, c);
    } else {
      CutThere(s, c);
    }
    forall a, b | Cut(s, c, a, b)
      ensures !Without(s, {c}) && a == Before(s, {c}) && b == Behind(s, {c})
    {
      CutIsOnlyThere(s, c, a, b);
    }
  }

  ghost predicate IsUserinfo(u: Parts, s: string) {
    if Without(s, {':'}) then u.user == s && u.password == "" else Cut(s, ':', u.user, u.password)
  }

  /** The port stands behind the first colon, if there is one. */
  ghost predicate IsPort(port: int, s: string) {
    if Without(s, {':'}) then port == 0 else exists a, b :: Cut(s, ':', a, b) && port == Atoi(b)
  }

  ghost predicate IsHostport(u: Parts, s: string) {
    if s == "" then u.host == "" && u.port == 0
    else if s[0] != '[' then
      && IsPort(u.port, s)
      && if Without(s, {':'}) then u.host == s else exists b :: Cut(s, ':', u.host, b)
    else if Without(s[1..], {']'}) then u.host == "" && u.port == 0
    else exists tail :: Cut(s[1..], ']', u.host, tail) && IsPort(u.port, tail)
  }

  ghost predicate IsAuthority(u: Parts, s: string) {
    if Without(s, {'@'}) then u.user == "" && u.password == "" && IsHostport(u, s)
    else exists a, b :: Cut(s, '@', a, b) && IsUserinfo(u, a) && IsHostport(u, b)
  }

  ghost predicate IsPathAndQuery(u: Parts, s: string) {
    if Without(s, {'?'}) then u.path == s && u.query == "" else Cut(s, '?', u.path, u.query)
  }

  ghost predicate IsRest(u: Parts, s: string) {
    if Without(s, {'#'}) then u.fragment == "" && IsPathAndQuery(u, s)
    else exists front :: Cut(s, '#', front, u.fragment) && IsPathAndQuery(u, front)
  }

  predicate NoAuthority(u: Parts) {
    u.user == "" && u.password == "" && u.host == "" && u.port == 0
  }

  /** Behind "//": the authority up to the first delimiter, and the rest. */
  ghost predicate IsHierarchical(u: Parts, body: string) {
    exists a, b :: body == a + b && Without(a, DELIMITERS) && (b == "" || b[0] in DELIMITERS)
      && IsAuthority(u, a) && IsRest(u, b)
  }

  predicate IsNet(s: string) {
    |s| >= 2 && s[0] == '/' && s[1] == '/'
  }

  ghost predicate IsBehindScheme(u: Parts, rest: string) {
    if IsNet(rest) then IsHierarchical(u, rest[2..])
    else NoAuthority(u) && u.path == rest && u.query == "" && u.fragment == ""
  }

  /** The format that `parse` documents, for any text, in terms of what stands where. */
  ghost predicate IsUri(u: Parts, s: string) {
    if Without(s, {':'}) then u.scheme == "" && NoAuthority(u) && IsRest(u, s)
    else exists rest :: Cut(s, ':', u.scheme, rest) && IsBehindScheme(u, rest)
  }

  lemma UserinfoIs(u: Parts, blank: Parts, s: string)
    requires blank.password == ""
    ensures IsUserinfo(u, s) <==>
      u.user == ParseUserinfo(blank, s).user && u.password == ParseUserinfo(blank, s).password
  {
    CutIsFind(s, ':');
  }

  /** The number behind the first colon. */
  function PortIn(s: string): int {
    if Find(s, {':'}) < |s| then Atoi(Behind(s, {':'})) else 0
  }

  lemma PortIs(port: int, s: string)
    ensures IsPort(port, s) <==> port == PortIn(s)
  {
    hide Atoi;
    CutIsFind(s, ':');
    if port == PortIn(s) && !Without(s, {':'}) {
      assert Cut(s, ':', Before(s, {':'}), Behind(s, {':'})) && port == Atoi(Behind(s, {':'}));
    }
  }

  lemma BracketedIs(u: Parts, blank: Parts, s: string)
    requires blank.host == "" && blank.port == 0 && s != "" && s[0] == '['
    ensures IsHostport(u, s) <==> u.host == ParseHostport(blank, s).host && u.port == ParseHostport(blank, s).port
  {
    hide Atoi, IsPort;
    var inner := s[1..];
    CutIsFind(inner, ']');
    if !Without(inner, {']'}) {
      var tail := inner[Find(inner, {']'})..];
      var behind := Behind(inner, {']'});
      assert tail == [']'] + behind;
      PortBehindBracket(behind);
      PortIs(u.port, behind);
      assert Cut(inner, ']', Before(inner, {']'}), behind);
    }
  }

  lemma HostportIs(u: Parts, blank: Parts, s: string)
    requires blank.host == "" && blank.port == 0
    ensures IsHostport(u, s) <==> u.host == ParseHostport(blank, s).host && u.port == ParseHostport(blank, s).port
  {
    hide Atoi, IsPort;
    if s != "" && s[0] == '[' {
      BracketedIs(u, blank, s);
    } else {
      PortIs(u.port, s);
      CutIsFind(s, ':');
    }
  }

  lemma AuthorityIs(u: Parts, blank: Parts, s: string)
    requires NoAuthority(blank)
    ensures IsAuthority(u, s) <==> SameAuthority(u, ParseAuthority(blank, s))
  {
    hide IsUserinfo, IsHostport, ParseUserinfo, ParseHostport;
    CutIsFind(s, '@');
    var a, b := Before(s, {'@'}), Behind(s, {'@'});
    UserinfoKeeps(blank, a);
    HostportKeeps(blank, s);
    HostportKeeps(ParseUserinfo(blank, a), b);
    UserinfoIs(u, blank, a);
    HostportIs(u, ParseUserinfo(blank, a), b);
    HostportIs(u, blank, s);
  }

  predicate SameAuthority(u: Parts, v: Parts) {
    u.user == v.user && u.password == v.password && u.host == v.host && u.port == v.port
  }

  lemma UserinfoKeeps(u: Parts, s: string)
    ensures var r := ParseUserinfo(u, s); r == u.(user := r.user, password := r.password)
  {
  }

  lemma HostportKeeps(u: Parts, s: string)
    ensures var r := ParseHostport(u, s); r == u.(host := r.host, port := r.port)
  {
  }

  lemma AuthorityKeeps(u: Parts, s: string)
    ensures var r := ParseAuthority(u, s);
      r == u.(user := r.user, password := r.password, host := r.host, port := r.port)
  {
    hide ParseUserinfo, ParseHostport, Find;
    UserinfoKeeps(u, Before(s, {'@'}));
    HostportKeeps(u, s);
    HostportKeeps(ParseUserinfo(u, Before(s, {'@'})), Behind(s, {'@'}));
  }

  lemma PathAndQueryIs(u: Parts, s: string)
    ensures IsPathAndQuery(u, s) <==> u.path == Before(s, {'?'}) && u.query == Behind(s, {'?'})
  {
    CutIsFind(s, '?');
  }

  lemma RestIs(u: Parts, blank: Parts, s: string)
    ensures var r := ParseRest(blank, s);
      IsRest(u, s) <==> u.path == r.path && u.query == r.query && u.fragment == r.fragment
  {
    hide IsPathAndQuery, Before, Behind;
    CutIsFind(s, '#');
    PathAndQueryIs(u, s);
    PathAndQueryIs(u, Before(s, {'#'}));
  }

  /** Where an authority ends. */
  lemma DelimitedIsFind(body: string, a: string, b: string)
    ensures body == a + b && Without(a, DELIMITERS) && (b == "" || b[0] in DELIMITERS)
      <==> a == body[..Find(body, DELIMITERS)] && b == body[Find(body, DELIMITERS)..]
  {
    FindStops(body, DELIMITERS);
    if body == a + b && Without(a, DELIMITERS) && (b == "" || b[0] in DELIMITERS) {
      FindAfter(a, b, DELIMITERS);
    }
  }

  /** Behind a scheme and "//". */
  function ParseNet(scheme: string, body: string): Parts {
    var end := Find(body, DELIMITERS);
    ParseRest(ParseAuthority(EMPTY.(scheme := scheme), body[..end]), body[end..])
  }

  lemma HierarchicalIs(u: Parts, body: string)
    ensures IsHierarchical(u, body) <==> u == ParseNet(u.scheme, body)
  {
    hide IsAuthority, IsRest, Find, Without, ParseAuthority;
    var end := Find(body, DELIMITERS);
    var a, b := body[..end], body[end..];
    var blank := EMPTY.(scheme := u.scheme);
    AuthorityIs(u, blank, a);
    AuthorityKeeps(blank, a);
    RestIs(u, ParseAuthority(blank, a), b);
    DelimitedIsFind(body, a, b);
    forall x, y | body == x + y && Without(x, DELIMITERS) && (y == "" || y[0] in DELIMITERS)
      ensures x == a && y == b
    {
      DelimitedIsFind(body, x, y);
    }
  }

  /** The main result on parsing: for every text, `parse` finds the components that the format
      gives to it, and there is only one way to give them. */
  lemma ParseIsTheFormat(u: Parts, s: string)
    ensures IsUri(u, s) <==> u == Parse(s)
  {
    hide IsHierarchical, IsRest, ParseAuthority, ParseRest, Before, Behind;
    CutIsFind(s, ':');
    if Without(s, {':'}) {
      RestIs(u, EMPTY, s);
      RestKeeps(EMPTY, s);
    } else {
      var rest := Behind(s, {':'});
      if IsNet(rest) {
        HierarchicalIs(u, rest[2..]);
        NetIs(Before(s, {':'}), rest[2..]);
      }
    }
  }

  lemma RestKeeps(u: Parts, s: string)
    ensures var r := ParseRest(u, s); r == u.(path := r.path, query := r.query, fragment := r.fragment)
  {
  }

  lemma NetIs(scheme: string, body: string)
    ensures ParseNet(scheme, body) ==
      ParseRest(ParseAuthority(EMPTY.(scheme := scheme), body[..Find(body, {'/', '?', '#'})]),
                body[Find(body, {'/', '?', '#'})..])
    ensures ParseNet(scheme, body).scheme == scheme
  {
    AuthorityKeeps(EMPTY.(scheme := scheme), body[..Find(body, DELIMITERS)]);
  }

  /** A relative reference: path, query and fragment are told apart again. */
  lemma RelativeRoundTrip(path: string, query: string, fragment: string)
    requires Without(path, {':', '?', '#'}) && Without(query, {':', '#'}) && Without(fragment, {':'})
    ensures var u := EMPTY.(path := path, query := query, fragment := fragment);
      Parse(path + QueryText(u) + FragmentText(u)) == u && Parse(ToString(u)) == u
  {
    var u := EMPTY.(path := path, query := query, fragment := fragment);
    var s := path + QueryText(u) + FragmentText(u);
    RestRoundTrip(u, EMPTY);
    FindNothing(s, {':'});
    assert ToString(u) == s;
  }

  /** Behind a scheme without "//", everything is the path. */
  lemma OpaqueRoundTrip(scheme: string, rest: string)
    requires Without(scheme, {':'}) && !IsNet(rest)
    ensures Parse(scheme + ([':'] + rest)) == EMPTY.(scheme := scheme, path := rest)
  {
    SplitAt(scheme, ':', rest);
  }

  // ---------------------------------------------------------------------------
  // Any number
  // ---------------------------------------------------------------------------

  predicate IsSpace(c: char) {
    c == ' ' || '\t' <= c <= '\r'
  }

  /** Reading stops at the first character that is not a digit. */
  lemma {:induction false} DigitsStop(s: string, tail: string, acc: nat)
    requires forall i :: 0 <= i < |s| ==> IsDigit(s[i])
    requires tail == "" || !IsDigit(tail[0])
    ensures DigitsValue(s + tail, acc) == DigitsValue(s, acc)
    decreases |s|
  {
    if s == "" {
      assert s + tail == tail;
    } else {
      assert (s + tail)[0] == s[0] && (s + tail)[1..] == s[1..] + tail;
      DigitsStop(s[1..], tail, 10 * acc + (s[0] as int - '0' as int));
    }
  }

  lemma {:induction false} SpacesSkipped(spaces: string, s: string)
    requires forall i :: 0 <= i < |spaces| ==> IsSpace(spaces[i])
    ensures Atoi(spaces + s) == Atoi(s)
    decreases |spaces|
  {
    if spaces == "" {
      assert spaces + s == s;
    } else {
      assert (spaces + s)[0] == spaces[0] && (spaces + s)[1..] == spaces[1..] + s;
      SpacesSkipped(spaces[1..], s);
    }
  }

  /** White space, a sign, digits, and anything that does not begin with a digit. */
  lemma AtoiReads(spaces: string, sign: string, n: nat, tail: string)
    requires forall i :: 0 <= i < |spaces| ==> IsSpace(spaces[i])
    requires sign in {"", "+", "-"} && (tail == "" || !IsDigit(tail[0]))
    ensures Atoi(spaces + (sign + (Decimal(n) + tail))) == if sign == "-" then -(n as int) else n
  {
    var digits := Decimal(n) + tail;
    SpacesSkipped(spaces, sign + digits);
    DigitsStop(Decimal(n), tail, 0);
    DecimalValue(n);
    assert IsDigit(Decimal(n)[0]) && digits[0] == Decimal(n)[0];
    if sign == "" {
      assert sign + digits == digits;
    } else {
      assert (sign + digits)[0] == sign[0] && (sign + digits)[1..] == digits;
    }
  }

  /** Where no digit stands, the number is 0. */
  lemma AtoiOfNothing(spaces: string, sign: string, tail: string)
    requires forall i :: 0 <= i < |spaces| ==> IsSpace(spaces[i])
    requires sign in {"+", "-"} && (tail == "" || !IsDigit(tail[0]))
    ensures Atoi(spaces + (sign + tail)) == 0
  {
    SpacesSkipped(spaces, sign + tail);
    assert (sign + tail)[0] == sign[0] && (sign + tail)[1..] == tail;
  }

  /** The bracket itself is no colon. */
  lemma PortBehindBracket(s: string)
    ensures PortIn([']'] + s) == PortIn(s)
  {
    var t := [']'] + s;
    assert t[1..] == s;
    CutIsFind(t, ':');
    CutIsFind(s, ':');
  }
}
