/** What happens to the request path: unchanged between nodes, and its matched prefix
    exchanged for the registered service base at the last node. */
module PathRewrite {
  import opened GoStrings
  import opened Models
  import opened Routing

  // ---------- At the worker ----------

  /** processRequest: the part of the request path beyond the registered path. */
  function SubPath(path: string, poolPath: string): string {
    var sub := TrimPrefix(path, poolPath);
    if sub == path then TrimPrefix(path, TrimSuffix(poolPath, "/")) else sub
  }

  predicate CompletedBy(path: string, nodePath: string, sub: string) {
    nodePath + sub == path || (sub == "" && nodePath == path + "/")
  }

  /** The remainder completes the registered path to the request path; it is empty when
      the request lacks only the trailing slash. */
  lemma SubPathCompletes(path: string, nodePath: string)
    requires Matches(path, nodePath)
    ensures CompletedBy(path, nodePath, SubPath(path, nodePath))
  {
    if HasPrefix(path, nodePath) {
      assert nodePath + path[|nodePath|..] == path;
      if TrimPrefix(path, nodePath) == path {
        assert nodePath == "";
      }
    } else {
      assert nodePath == nodePath[..|nodePath| - 1] + "/";
      assert path + "/" == nodePath;
      assert TrimSuffix(nodePath, "/") == path;
    }
  }

  /** The path part of a service path such as "18001/v1/": all from the first slash, or
      "/" when only a port is given. */
  function ServiceBase(servicePath: string): string {
    if '/' in servicePath then AfterPort(servicePath) else "/"
  }

  function AfterPort(servicePath: string): string {
    if servicePath == "" then "" else if servicePath[0] == '/' then servicePath else AfterPort(servicePath[1..])
  }

  lemma {:induction false} AfterPortIsSuffix(s: string)
    requires '/' in s
    ensures 0 < |AfterPort(s)| <= |s| && AfterPort(s) == s[|s| - |AfterPort(s)|..]
    ensures AfterPort(s)[0] == '/'
    ensures AfterPort(s)[|AfterPort(s)| - 1] == s[|s| - 1]
  {
    if s[0] != '/' {
      AfterPortIsSuffix(s[1..]);
    }
  }

  /** For every registration the admin API accepts, base and remainder meet in a doubled
      slash exactly when the request itself doubles it, or when a bare port is registered
      under a path without trailing slash and the request adds one. */
  lemma DoubledSlashIff(servicePath: string, nodePath: string, path: string)
    requires servicePath != "" && HasSuffix(servicePath, "/") == HasSuffix(nodePath, "/")
    requires Matches(path, nodePath)
    ensures HasSuffix(ServiceBase(servicePath), "/") && HasPrefix(SubPath(path, nodePath), "/")
       <==> (HasSuffix(nodePath, "/") && nodePath + "/" <= path)
            || ('/' !in servicePath && path == nodePath + "/")
  {
    SubPathCompletes(path, nodePath);
    var sub := SubPath(path, nodePath);
    if '/' in servicePath {
      AfterPortIsSuffix(servicePath);
    }
    if HasSuffix(nodePath, "/") {
      assert nodePath[|nodePath| - 1] == '/';
      assert servicePath[|servicePath| - 1] == '/';
      if nodePath + "/" <= path {
        assert path[|nodePath|] == '/';
      }
    } else {
      assert sub == "" || sub == "/";
    }
  }

  // ---------- Between nodes ----------

  /** HandleForwardedRequestWithError: the path put into the target URL. */
  function TargetPath(path: string, node: RemoteNode): string {
    if node.servicePath == "" then path
    else
      var rest := TrimPrefix(path, node.nodePath);
      if !HasSuffix(node.nodePath, "/") && rest == "" then "/" else rest
  }

  predicate IsHex(c: char) { '0' <= c <= '9' || 'a' <= c <= 'f' || 'A' <= c <= 'F' }

  function HexValue(c: char): (v: nat)
    requires IsHex(c)
    ensures v < 16
  {
    if c <= '9' then c as int - '0' as int
    else if c <= 'F' then c as int - 'A' as int + 10
    else c as int - 'a' as int + 10
  }

  /** Percent-decoding as net/url does it for a path; None for a malformed escape. */
  function Unescape(s: string): Option<string> {
    if s == "" then Some("")
    else if s[0] == '%' then
      if |s| < 3 || !IsHex(s[1]) || !IsHex(s[2]) then None
      else
        match Unescape(s[3..])
        case None => None
        case Some(rest) => Some([(16 * HexValue(s[1]) + HexValue(s[2])) as char] + rest)
    else
      match Unescape(s[1..])
      case None => None
      case Some(rest) => Some([s[0]] + rest)
  }

  function Before(s: string, c: char): string {
    if s == "" || s[0] == c then "" else [s[0]] + Before(s[1..], c)
  }

  predicate IsControl(c: char) { c < ' ' || c == '\U{007F}' }

  /** The path the next node sees. The forwarder writes the decoded path into a URL text
      without escaping it, and the HTTP client parses that text again: fragment and query
      are cut off, escapes are decoded, and control characters make the URL invalid. */
  function HopPath(path: string): Option<string> {
    if exists c :: c in path && IsControl(c) then None
    else Unescape(Before(Before(path, '#'), '?'))
  }

  /** No character of the path means something else inside a URL. */
  predicate PlainPath(path: string) {
    forall c :: c in path ==> !IsControl(c) && c != '#' && c != '?' && c != '%'
  }

  lemma {:induction false} BeforeAbsent(s: string, c: char)
    requires c !in s
    ensures Before(s, c) == s
  {
    if s != "" {
      BeforeAbsent(s[1..], c);
      assert s == [s[0]] + s[1..];
    }
  }

  lemma {:induction false} BeforePresent(s: string, c: char)
    ensures |Before(s, c)| <= |s|
    ensures c in s ==> |Before(s, c)| < |s|
  {
    if s != "" && s[0] != c {
      BeforePresent(s[1..], c);
    }
  }

  lemma {:induction false} UnescapePlain(s: string)
    requires '%' !in s
    ensures Unescape(s) == Some(s)
  {
    if s != "" {
      UnescapePlain(s[1..]);
      assert s == [s[0]] + s[1..];
    }
  }

  lemma {:induction false} UnescapeShrinks(s: string)
    ensures Unescape(s).Some? ==> |Unescape(s).value| <= |s|
    ensures Unescape(s).Some? && '%' in s ==> |Unescape(s).value| < |s|
  {
    if s != "" {
      if s[0] != '%' {
        UnescapeShrinks(s[1..]);
      } else if |s| >= 3 {
        UnescapeShrinks(s[3..]);
      }
    }
  }

  /** A hop hands the path over unchanged exactly when the path is plain. */
  lemma HopKeepsPathIff(path: string)
    ensures HopPath(path) == Some(path) <==> PlainPath(path)
  {
    var noFragment := Before(path, '#');
    var target := Before(noFragment, '?');
    BeforePresent(path, '#');
    BeforePresent(noFragment, '?');
    UnescapeShrinks(target);
    if PlainPath(path) {
      BeforeAbsent(path, '#');
      BeforeAbsent(path, '?');
      UnescapePlain(path);
    }
    if HopPath(path) == Some(path) {
      assert |noFragment| == |path| && |target| == |path|;
      assert '#' !in path;
      BeforeAbsent(path, '#');
      assert '?' !in path;
      BeforeAbsent(path, '?');
      assert '%' !in path;
    }
  }

  function HexDigit(v: nat): (c: char)
    requires v < 16
    ensures IsHex(c) && HexValue(c) == v
  {
    if v < 10 then (v + '0' as int) as char else (v - 10 + 'A' as int) as char
  }

  predicate Bytes(s: string) {
    forall i :: 0 <= i < |s| ==> s[i] as int < 256
  }

  /** Every byte of a text as a percent escape. */
  function Escaped(s: string): (t: string)
    requires Bytes(s)
    ensures forall c :: c in t ==> c == '%' || IsHex(c)
  {
    if s == "" then ""
    else ['%', HexDigit(s[0] as int / 16), HexDigit(s[0] as int % 16)] + Escaped(s[1..])
  }

  /** Decoding undoes escaping. */
  lemma {:induction false} UnescapeEscaped(s: string)
    requires Bytes(s)
    ensures Unescape(Escaped(s)) == Some(s)
  {
    if s != "" {
      UnescapeEscaped(s[1..]);
      assert Escaped(s)[3..] == Escaped(s[1..]);
      assert s == [s[0]] + s[1..];
    }
  }

  /** An escaped path arrives decoded, whatever it holds. */
  lemma HopDecodes(s: string)
    requires Bytes(s)
    ensures HopPath(Escaped(s)) == Some(s)
  {
    BeforeAbsent(Escaped(s), '#');
    BeforeAbsent(Escaped(s), '?');
    UnescapeEscaped(s);
  }

  lemma {:induction false} BeforeFirst(a: string, c: char, rest: string)
    requires c !in a
    ensures Before(a + [c] + rest, c) == a
  {
    var s := a + [c] + rest;
    if a == "" {
      assert s[0] == c;
    } else {
      assert s[0] == a[0] && s[1..] == a[1..] + [c] + rest;
      BeforeFirst(a[1..], c, rest);
    }
  }

  lemma {:induction false} BeforeEarlier(a: string, c: char, rest: string, d: char)
    requires c != d && d !in a
    ensures Before(a + [c] + rest, d) == a + [c] + Before(rest, d)
  {
    var s := a + [c] + rest;
    if a == "" {
      assert s[0] == c && s[1..] == rest;
    } else {
      assert s[0] == a[0] && s[1..] == a[1..] + [c] + rest;
      BeforeEarlier(a[1..], c, rest, d);
    }
  }

  /** A hop cuts everything from the first '?' or '#' on. */
  lemma HopCutsTail(a: string, c: char, rest: string)
    requires PlainPath(a) && (c == '?' || c == '#') && forall d :: d in rest ==> !IsControl(d)
    ensures HopPath(a + [c] + rest) == Some(a)
  {
    UnescapePlain(a);
    if c == '#' {
      BeforeFirst(a, c, rest);
      BeforeAbsent(a, '?');
    } else {
      BeforeEarlier(a, c, rest, '#');
      BeforeFirst(a, c, Before(rest, '#'));
    }
  }

  /** A client asking for /a%3Fb reaches the first node as "/a?b" and the next as "/a". */
  lemma EscapedQuestionMarkIsLost()
    ensures HopPath("/a?b") == Some("/a")
  {
    assert Before("/a?b", '#') == "/a?b" by {
      BeforeAbsent("/a?b", '#');
    }
    assert Before("?b", '?') == "";
    assert Before("a?b", '?') == "a";
    assert Before("/a?b", '?') == "/a";
    UnescapePlain("/a");
  }
}
