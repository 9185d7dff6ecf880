/**
 * The domain blocklist: how the comma-separated `BLOCKLIST` setting becomes a
 * list of entries, how the host is taken out of a request URL, and when a host
 * is blocked by an entry.
 */
module Blocklist {
  import opened Wrappers
  import opened PyStr

  /** What every blocklist entry looks like: non-empty, lower-case, with no
      surrounding whitespace and no comma. */
  predicate IsEntry(d: string) {
    d != "" && IsLower(d) && IsStripped(d) && ',' !in d
  }

  /** The list comprehension over the pieces: blank pieces are dropped, the
      others are stripped and lower-cased, in their original order. */
  function Normalize(pieces: seq<string>): seq<string> {
    if pieces == [] then []
    else
      var p := Strip(pieces[0]);
      (if p != "" then [Lower(p)] else []) + Normalize(pieces[1..])
  }

  /** `BLOCKLIST` as parsed from the raw setting (an unset variable is ""). */
  function ParseBlocklist(raw: string): (entries: seq<string>)
    ensures forall d :: d in entries ==> IsEntry(d)
  {
    SplitPiecesHaveNoSep(raw, ',');
    NormalizeGivesEntries(Split(raw, ','));
    Normalize(Split(raw, ','))
  }

  lemma {:induction false} NormalizeGivesEntries(pieces: seq<string>)
    requires forall p :: p in pieces ==> ',' !in p
    ensures forall d :: d in Normalize(pieces) ==> IsEntry(d)
  {
    if pieces != [] {
      NormalizeGivesEntries(pieces[1..]);
      var p := Strip(pieces[0]);
      if p != "" {
        StripProperties(pieces[0]);
        var i, j :| 0 <= i <= j <= |pieces[0]| && p == pieces[0][i..j];
        assert ',' !in p by {
          assert pieces[0] in pieces;
          forall k | 0 <= k < |p| ensures p[k] != ',' {
            assert p[k] == pieces[0][i + k];
          }
        }
        LowerProperties(p);
        LowerKeepsStripped(p);
        forall i | 0 <= i < |p| ensures Lower(p)[i] != ',' {
          assert p[i] != ',';
        }
      }
    }
  }

  lemma {:induction false} NormalizeConcat(a: seq<string>, b: seq<string>)
    ensures Normalize(a + b) == Normalize(a) + Normalize(b)
  {
    if a != [] {
      assert (a + b)[1..] == a[1..] + b;
      NormalizeConcat(a[1..], b);
    } else {
      assert a + b == b;
    }
  }

  lemma {:induction false} NormalizeEntries(entries: seq<string>)
    requires forall d :: d in entries ==> IsEntry(d)
    ensures Normalize(entries) == entries
  {
    if entries != [] {
      var d := entries[0];
      assert IsEntry(d);
      StripOfStripped(d);
      LowerOfLower(d);
      NormalizeEntries(entries[1..]);
    }
  }

  lemma StripOfStripped(s: string)
    requires IsStripped(s)
    ensures Strip(s) == s
  {
  }

  /** The entries keep the order of the setting: the entries of `a,b` are
      those of `a` followed by those of `b`. */
  lemma ParseBlocklistConcat(a: string, b: string)
    ensures ParseBlocklist(a + "," + b) == ParseBlocklist(a) + ParseBlocklist(b)
  {
    assert a + "," + b == a + [','] + b;
    SplitConcat(a, b, ',');
    NormalizeConcat(Split(a, ','), Split(b, ','));
  }

  /** Parsing a comma-joined list of well-formed entries gives back exactly
      that list, in order. */
  lemma ParseBlocklistRoundTrip(entries: seq<string>)
    requires |entries| >= 1
    requires forall d :: d in entries ==> IsEntry(d)
    ensures ParseBlocklist(Join(entries, ',')) == entries
  {
    SplitJoin(entries, ',');
    NormalizeEntries(entries);
  }

  /** A piece without a comma becomes one entry, stripped and lower-cased,
      unless it is blank. With `ParseBlocklistConcat` this fixes the entries
      of every setting: `"a.com, B.com"` gives `["a.com", "b.com"]`. */
  lemma ParseBlocklistPiece(s: string)
    requires ',' !in s
    ensures ParseBlocklist(s) == if Strip(s) == "" then [] else [Lower(Strip(s))]
  {
    SplitWithoutSep(s, ',');
    assert [s][1..] == [];
    assert Normalize([s]) == (if Strip(s) != "" then [Lower(Strip(s))] else []) + Normalize([]);
  }

  /** An unset or blank setting gives an empty blocklist. */
  lemma ParseBlocklistBlank(raw: string)
    requires forall i :: 0 <= i < |raw| ==> IsSpace(raw[i]) || raw[i] == ','
    ensures ParseBlocklist(raw) == []
  {
    BlankPiecesVanish(raw, Split(raw, ','));
  }

  lemma {:induction false} BlankPiecesVanish(raw: string, pieces: seq<string>)
    requires forall i :: 0 <= i < |raw| ==> IsSpace(raw[i]) || raw[i] == ','
    requires pieces == Split(raw, ',')
    ensures Normalize(pieces) == []
  {
    if raw == [] {
      assert Strip("") == "";
    } else {
      var rest := Split(raw[1..], ',');
      BlankPiecesVanish(raw[1..], rest);
      if raw[0] == ',' {
        assert pieces == [""] + rest;
        assert Strip("") == "";
        NormalizeConcat([""], rest);
      } else {
        var p := [raw[0]] + rest[0];
        assert pieces == [p] + rest[1..];
        assert rest == [rest[0]] + rest[1..];
        NormalizeConcat([rest[0]], rest[1..]);
        assert Strip(rest[0]) == "";
        assert Strip(p) == "" by {
          assert TrimStart(p) == TrimStart(rest[0]);
        }
        NormalizeConcat([p], rest[1..]);
      }
    }
  }

  // ---------------------------------------------------------------------
  // Host extraction and matching

  predicate HasHttpScheme(u: string) {
    StartsWith(u, "http://") || StartsWith(u, "https://")
  }

  predicate IsNetlocDelimiter(c: char) {
    c == '/' || c == '?' || c == '#'
  }

  /** The prefix of `s` before the first `/`, `?` or `#`. */
  function UpToDelimiter(s: string): (r: string)
    ensures StartsWith(s, r)
    ensures forall i :: 0 <= i < |r| ==> !IsNetlocDelimiter(r[i])
    ensures |r| < |s| ==> IsNetlocDelimiter(s[|r|])
  {
    if s == [] || IsNetlocDelimiter(s[0]) then [] else [s[0]] + UpToDelimiter(s[1..])
  }

  /** The characters `urlsplit` deletes from the whole URL before it splits it. */
  predicate IsUnsafeUrlChar(c: char) {
    c == '\t' || c == '\r' || c == '\n'
  }

  /** `s` with every tab, carriage return and line feed deleted. */
  function RemoveUnsafe(s: string): (r: string)
    ensures |r| <= |s|
    ensures forall i :: 0 <= i < |r| ==> !IsUnsafeUrlChar(r[i])
  {
    if s == [] then []
    else (if IsUnsafeUrlChar(s[0]) then [] else [s[0]]) + RemoveUnsafe(s[1..])
  }

  /** Deleting works piece by piece. */
  lemma {:induction false} RemoveUnsafeConcat(a: string, b: string)
    ensures RemoveUnsafe(a + b) == RemoveUnsafe(a) + RemoveUnsafe(b)
  {
    if a != [] {
      assert (a + b)[1..] == a[1..] + b;
      RemoveUnsafeConcat(a[1..], b);
    } else {
      assert a + b == b;
    }
  }

  /** A string with nothing to delete is left as it is. */
  lemma {:induction false} RemoveUnsafeClean(s: string)
    requires forall i :: 0 <= i < |s| ==> !IsUnsafeUrlChar(s[i])
    ensures RemoveUnsafe(s) == s
  {
    if s != [] {
      RemoveUnsafeClean(s[1..]);
      assert [s[0]] + s[1..] == s;
    }
  }

  /** The netloc `urlparse(u)` gives for an http or https URL: after tabs,
      carriage returns and line feeds are deleted, what follows "scheme://" up
      to the first `/`, `?` or `#`. The scheme prefix holds none of the deleted
      characters, so deleting them after it is the same as deleting them
      first. `None` stands for the `ValueError` raised when exactly one of `[`
      and `]` occurs in the netloc. */
  function Netloc(u: string): Option<string>
    requires HasHttpScheme(u)
  {
    var rest := RemoveUnsafe(if StartsWith(u, "http://") then u[7..] else u[8..]);
    var n := UpToDelimiter(rest);
    if ('[' in n) != (']' in n) then None else Some(n)
  }

  /** An entry matches a host that is the entry itself or one of its
      sub-domains, i.e. ends with a dot followed by the entry. */
  predicate Matches(host: string, d: string) {
    host == d || EndsWith(host, "." + d)
  }

  /** `any(...)` over the blocklist, scanning it from the front. */
  function AnyMatch(host: string, blocklist: seq<string>): (r: bool)
    ensures r <==> exists d :: d in blocklist && Matches(host, d)
  {
    if blocklist == [] then false
    else Matches(host, blocklist[0]) || AnyMatch(host, blocklist[1..])
  }

  /** `domain_blocked(u)`: fail-closed when the URL cannot be parsed. */
  function DomainBlocked(u: string, blocklist: seq<string>): bool
    requires HasHttpScheme(u)
  {
    match Netloc(u)
    case None => true
    case Some(n) => AnyMatch(Lower(n), blocklist)
  }

  /** A URL is blocked iff it cannot be parsed, or its lower-cased host equals
      an entry or ends with "." followed by an entry. */
  lemma DomainBlockedIff(u: string, blocklist: seq<string>)
    requires HasHttpScheme(u)
    ensures DomainBlocked(u, blocklist) <==>
      Netloc(u).None? || exists d :: d in blocklist && Matches(Lower(Netloc(u).value), d)
  {
  }

  /** Every sub-domain of an entry is matched by it. */
  lemma SubdomainMatches(sub: string, d: string)
    ensures Matches(sub + "." + d, d)
  {
    assert (sub + "." + d)[|sub + "." + d| - |"." + d|..] == "." + d;
  }

  /** A host that merely ends in the entry's text, without a dot before it,
      is not matched: `notexample.com` is not under `example.com`. */
  lemma NoMatchWithoutDot(p: string, d: string)
    requires p != "" && p[|p| - 1] != '.'
    ensures !Matches(p + d, d)
  {
    var h := p + d;
    assert h[|p| - 1] == p[|p| - 1];
    assert |h| - |"." + d| == |p| - 1;
  }

  /** When a URL parses, an empty blocklist blocks nothing; when it does not,
      the URL is blocked whatever the list holds. */
  lemma ParseOutcomeDecides(u: string, blocklist: seq<string>)
    requires HasHttpScheme(u)
    ensures Netloc(u).None? ==> DomainBlocked(u, blocklist)
    ensures Netloc(u).Some? && blocklist == [] ==> !DomainBlocked(u, blocklist)
  {
  }

  /** The host keeps any port, so an entry does not match its own name with a
      port after it: `example.com:8080` is not under `example.com`. */
  lemma PortNotMatched(d: string, port: string)
    requires ':' !in d && '.' !in port
    ensures !Matches(d + ":" + port, d)
  {
    var h, s := d + ":" + port, "." + d;
    var k := |port|;
    assert |h| - |s| == k;
    if k <= |d| {
      assert h[|d|] == ':';
      if k < |d| { assert s[|d| - k] == d[|d| - k - 1]; }
      assert h[k..][|d| - k] != s[|d| - k];
    } else {
      assert h[k] == port[k - |d| - 1];
      assert h[k..][0] != s[0];
    }
  }

  /** An unbalanced bracket makes the URL unparsable, which blocks it even
      with an empty list. */
  lemma UnbalancedBracketExample()
    ensures DomainBlocked("http://[::1/x", [])
  {
    var u := "http://[::1/x";
    assert StartsWith(u, "http://");
    assert u[7..] == "[::1" + "/x";
    RemoveUnsafeClean("[::1" + "/x");
    UpToDelimiterOf("[::1", "/x");
    assert '[' in "[::1" && ']' !in "[::1";
  }

  /** A tab, carriage return or line feed anywhere after the scheme does not
      change the netloc: `http://exa<tab>mple.com/` has the netloc
      `example.com`. */
  lemma UnsafeCharIgnored(scheme: string, a: string, c: char, b: string)
    requires scheme == "http://" || scheme == "https://"
    requires IsUnsafeUrlChar(c)
    ensures HasHttpScheme(scheme + a + [c] + b) && HasHttpScheme(scheme + a + b)
    ensures Netloc(scheme + a + [c] + b) == Netloc(scheme + a + b)
  {
    var u, v := scheme + a + [c] + b, scheme + a + b;
    assert u[..|scheme|] == scheme && v[..|scheme|] == scheme;
    assert u[|scheme|..] == a + ([c] + b);
    assert v[|scheme|..] == a + b;
    assert StartsWith(u, "http://") <==> scheme == "http://" by {
      if scheme == "https://" { assert u[4] == 's'; }
    }
    assert StartsWith(v, "http://") <==> scheme == "http://" by {
      if scheme == "https://" { assert v[4] == 's'; }
    }
    RemoveUnsafeConcat(a, [c] + b);
    RemoveUnsafeConcat([c], b);
    assert ([c] + b)[1..] == b;
    assert RemoveUnsafe([c]) == [] by { assert [c][1..] == []; }
    RemoveUnsafeConcat(a, b);
    var ru := if StartsWith(u, "http://") then u[7..] else u[8..];
    var rv := if StartsWith(v, "http://") then v[7..] else v[8..];
    assert ru == a + ([c] + b) && rv == a + b;
    assert RemoveUnsafe(ru) == RemoveUnsafe(rv);
  }

  /** `UpToDelimiter` stops exactly where a delimiter-free prefix ends. */
  lemma {:induction false} UpToDelimiterOf(a: string, b: string)
    requires forall i :: 0 <= i < |a| ==> !IsNetlocDelimiter(a[i])
    requires b == [] || IsNetlocDelimiter(b[0])
    ensures UpToDelimiter(a + b) == a
  {
    if a == [] {
      assert a + b == b;
    } else {
      assert (a + b)[1..] == a[1..] + b;
      UpToDelimiterOf(a[1..], b);
    }
  }

  /** The host of a URL spelled out as scheme, host and path. */
  lemma HostOf(scheme: string, host: string, path: string)
    requires scheme == "http://" || scheme == "https://"
    requires forall i :: 0 <= i < |host| ==> !IsNetlocDelimiter(host[i]) && host[i] != '[' && host[i] != ']'
    requires forall i :: 0 <= i < |host| ==> !IsUnsafeUrlChar(host[i])
    requires forall i :: 0 <= i < |path| ==> !IsUnsafeUrlChar(path[i])
    requires path == [] || IsNetlocDelimiter(path[0])
    ensures HasHttpScheme(scheme + host + path) && Netloc(scheme + host + path) == Some(host)
  {
    var u := scheme + host + path;
    assert u[..|scheme|] == scheme;
    assert u[|scheme|..] == host + path;
    assert StartsWith(u, "http://") <==> scheme == "http://" by {
      if scheme == "https://" { assert u[4] == 's'; }
    }
    RemoveUnsafeConcat(host, path);
    RemoveUnsafeClean(host);
    RemoveUnsafeClean(path);
    UpToDelimiterOf(host, path);
    assert '[' !in host && ']' !in host by {
      forall k | 0 <= k < |host| ensures host[k] != '[' && host[k] != ']' { }
    }
  }
}
