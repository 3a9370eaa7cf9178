/**
 * Android's cookie encryption for requests to the Mendix runtime
 * (MendixNetworkInterceptor.kt). Outgoing `Cookie` headers (section 5.4 of RFC 6265:
 * `name=value` pairs joined by "; ") have their "MxEnc" cookies decrypted; incoming
 * `Set-Cookie` headers (section 4.1 of RFC 6265) are replaced by an encrypted cookie
 * and an expired plaintext companion each.
 *
 * The cipher is a parameter. `encryptValue` always reports its value as encrypted
 * and returns an IV, so it is modelled as giving the Base64 texts of the cipher text
 * and the IV; parsing `Set-Cookie` headers (`Cookie.parseAll`) and printing cookies
 * (`Cookie.toString`) are parameters as well.
 */
module CookieInterceptor {
  import opened Wrappers
  import opened Text

  const IvDelimiter: string := "___enc___"
  const EncryptedCookieKeyPrefix: string := "MxEnc"
  const CookieHeader: string := "Cookie"
  const SetCookieHeader: string := "Set-Cookie"

  datatype Header = Header(name: string, value: string)

  /** The parts of a request the interceptor looks at: the URL's host and the headers, in order. */
  datatype Request = Request(host: string, headers: seq<Header>)

  /**
   * A cookie as OkHttp's `Cookie` holds it. `persistent` is false for a session
   * cookie, whose `expiresAt` OkHttp sets to the latest date it represents.
   */
  datatype Cookie = Cookie(name: string, value: string, domain: string, hostOnly: bool, path: string,
                           httpOnly: bool, secure: bool, expiresAt: int, persistent: bool)

  /** Kotlin's `Long.MIN_VALUE`. */
  const LongMin: int := -0x8000_0000_0000_0000
  /** OkHttp's `MAX_DATE`, 9999-12-31T23:59:59.999Z in milliseconds. */
  const MaxDate: int := 253402300799999

  /**
   * The expiry `Cookie.Builder.expiresAt` keeps: a time at or before the epoch becomes
   * `Long.MIN_VALUE`, one beyond `MAX_DATE` becomes `MAX_DATE`.
   */
  function BuiltExpiry(expiresAt: int): (r: int)
    ensures expiresAt <= 0 ==> r == LongMin
    ensures 0 < expiresAt <= MaxDate ==> r == expiresAt
    ensures expiresAt > MaxDate ==> r == MaxDate
  {
    if expiresAt <= 0 then LongMin else if expiresAt > MaxDate then MaxDate else expiresAt
  }

  /** `encryptValue` as (Base64 cipher text, Base64 IV), and `decryptValue(value, iv)`. */
  datatype Cipher = Cipher(encrypt: string -> (string, string), decrypt: (string, Option<string>) -> string)

  /** `Triple<ByteArray, ByteArray?, Boolean>` with the byte arrays decoded as text. */
  datatype EncryptionResult = EncryptionResult(cipherText: string, iv: Option<string>, encrypted: bool)

  // Headers.

  /** Header names compare case-insensitively. */
  predicate Named(h: Header, name: string) {
    EqualsIgnoreCase(h.name, name)
  }

  /** The index of the last header of that name. */
  function LastIndex(headers: seq<Header>, name: string): (r: Option<nat>)
    ensures r.None? <==> forall i :: 0 <= i < |headers| ==> !Named(headers[i], name)
    ensures r.Some? ==> r.value < |headers| && Named(headers[r.value], name)
    ensures r.Some? ==> forall j :: r.value < j < |headers| ==> !Named(headers[j], name)
    decreases |headers|
  {
    if |headers| == 0 then None
    else
      var last := |headers| - 1;
      if Named(headers[last], name) then Some(last)
      else
        var front := headers[..last];
        assert forall i :: 0 <= i < last ==> front[i] == headers[i];
        LastIndex(front, name)
  }

  /** `headers[name]`: the value of the last header of that name. */
  function LastValue(headers: seq<Header>, name: string): (r: Option<string>)
    ensures r.None? <==> forall i :: 0 <= i < |headers| ==> !Named(headers[i], name)
    ensures r.Some? ==> exists i :: 0 <= i < |headers| && Named(headers[i], name) && headers[i].value == r.value &&
                                    forall j :: i < j < |headers| ==> !Named(headers[j], name)
  {
    match LastIndex(headers, name)
    case None => None
    case Some(i) => Some(headers[i].value)
  }

  /** `removeAll(name)`: the headers of other names, in order. */
  function WithoutNamed(headers: seq<Header>, name: string): (r: seq<Header>)
    ensures |r| <= |headers|
    decreases |headers|
  {
    if |headers| == 0 then []
    else if Named(headers[|headers| - 1], name) then WithoutNamed(headers[..|headers| - 1], name)
    else WithoutNamed(headers[..|headers| - 1], name) + [headers[|headers| - 1]]
  }

  /** What `removeAll` keeps: exactly the headers of other names. */
  lemma {:induction false} WithoutNamedMembers(headers: seq<Header>, name: string)
    ensures forall i :: 0 <= i < |WithoutNamed(headers, name)| ==> !Named(WithoutNamed(headers, name)[i], name)
    ensures forall h :: h in WithoutNamed(headers, name) <==> h in headers && !Named(h, name)
    decreases |headers|
  {
    if |headers| > 0 {
      var front := headers[..|headers| - 1];
      WithoutNamedMembers(front, name);
      assert headers == front + [headers[|headers| - 1]];
    }
  }

  // Cookie values.

  /** `getEncryptedCookieName`. */
  function EncryptedCookieName(name: string): (r: string)
    ensures StartsWith(r, EncryptedCookieKeyPrefix) && r[|EncryptedCookieKeyPrefix|..] == name
  {
    EncryptedCookieKeyPrefix + name
  }

  /** Kotlin's `removePrefix`. */
  function RemovePrefix(s: string, prefix: string): (r: string)
    ensures StartsWith(s, prefix) ==> prefix + r == s
    ensures !StartsWith(s, prefix) ==> r == s
  {
    if StartsWith(s, prefix) then s[|prefix|..] else s
  }

  /** `cookieValueToDecryptionParams`: the text before the first delimiter, and the part after it up to the next one, if any. */
  function DecryptionParams(value: string): (r: (string, Option<string>))
    ensures !Contains(value, IvDelimiter) ==> r == (value, None)
    ensures !Contains(r.0, IvDelimiter) && (r.1.Some? ==> !Contains(r.1.value, IvDelimiter))
    ensures r.1.Some? ==> StartsWith(value, r.0 + IvDelimiter + r.1.value)
  {
    var parts := Split(value, IvDelimiter);
    SplitPartsFree(value, IvDelimiter, 0);
    if |parts| > 1 then
      SplitPartsFree(value, IvDelimiter, 1);
      SplitPrefix(value, IvDelimiter);
      (parts[0], Some(parts[1]))
    else
      SplitWithoutDelimiter(value, IvDelimiter);
      (parts[0], None)
  }

  /** A split into two or more parts starts with the first two joined by the delimiter. */
  lemma SplitPrefix(s: string, d: string)
    requires |d| > 0 && |Split(s, d)| > 1
    ensures StartsWith(s, Split(s, d)[0] + d + Split(s, d)[1])
  {
    var i := Find(s, d).value;
    var head, rest := s[..i], s[i + |d|..];
    var parts, tail := Split(s, d), Split(rest, d);
    assert parts[0] == head && parts[1] == tail[0] by { SplitAtFirst(s, d); }
    assert StartsWith(rest, tail[0]) by { SplitFirstIsPrefix(rest, d); }
    assert s == (head + d) + rest by { SliceThree(s, i, i + |d|); }
    PrefixExtends(head + d, rest, tail[0]);
  }

  /** A prefix of `rest` after `x` is a prefix of `x + rest`. */
  lemma PrefixExtends(x: string, rest: string, p: string)
    requires StartsWith(rest, p)
    ensures StartsWith(x + rest, x + p)
  {
    assert (x + rest)[..|x| + |p|] == x + rest[..|p|];
  }

  /** The first part of a split is a prefix of the string. */
  lemma SplitFirstIsPrefix(s: string, d: string)
    requires |d| > 0
    ensures StartsWith(s, Split(s, d)[0])
  {
    match Find(s, d)
    case None =>
    case Some(i) => assert Split(s, d)[0] == s[..i];
  }

  /** A split into one part is the string itself, which then does not contain the delimiter. */
  lemma SplitWithoutDelimiter(s: string, d: string)
    requires |d| > 0 && |Split(s, d)| == 1
    ensures Split(s, d)[0] == s && !Contains(s, d)
  {
  }

  /** `encryptionResultToCookieValue`: the cipher text and, when encrypted, the delimiter and IV, quoted, without line breaks. */
  function CookieValue(e: EncryptionResult): (r: string)
    requires e.encrypted ==> e.iv.Some?
    ensures '\n' !in r
    ensures !e.encrypted ==> r == "\"" + Remove(e.cipherText, '\n') + "\""
    ensures e.encrypted ==> r == "\"" + Remove(e.cipherText, '\n') + IvDelimiter + Remove(e.iv.value, '\n') + "\""
  {
    CookieValueSplits(e);
    Remove("\"" + Body(e) + "\"", '\n')
  }

  /** The text between the quotes before line breaks are removed. */
  function Body(e: EncryptionResult): string
    requires e.encrypted ==> e.iv.Some?
  {
    if e.encrypted then e.cipherText + IvDelimiter + e.iv.value else e.cipherText
  }

  /** Removing line breaks distributes over the quoted body's parts. */
  lemma CookieValueSplits(e: EncryptionResult)
    requires e.encrypted ==> e.iv.Some?
    ensures !e.encrypted ==> Remove("\"" + Body(e) + "\"", '\n') == "\"" + Remove(e.cipherText, '\n') + "\""
    ensures e.encrypted ==>
      (Remove("\"" + Body(e) + "\"", '\n') == "\"" + Remove(e.cipherText, '\n') + IvDelimiter + Remove(e.iv.value, '\n') + "\"")
  {
    RemoveAround("\"", Body(e), '\n');
    if e.encrypted {
      RemoveBetween(e.cipherText, IvDelimiter, e.iv.value, '\n');
      var a, b := Remove(e.cipherText, '\n'), Remove(e.iv.value, '\n');
      Associate("\"", a, IvDelimiter, b);
    }
  }

  /** Removing a character that `d` lacks leaves `d` on both sides of what it makes of `b`. */
  lemma RemoveAround(d: string, b: string, c: char)
    requires c !in d
    ensures Remove(d + b + d, c) == d + Remove(b, c) + d
  {
    RemoveConcat(d + b, d, c);
    RemoveConcat(d, b, c);
  }

  /** Removing a character that `d` lacks leaves `d` between what it makes of `a` and `b`. */
  lemma RemoveBetween(a: string, d: string, b: string, c: char)
    requires c !in d
    ensures Remove(a + d + b, c) == Remove(a, c) + d + Remove(b, c)
  {
    RemoveConcat(a + d, b, c);
    RemoveConcat(a, d, c);
  }

  /** Concatenation regrouped; stated over variables so that no literal is unfolded. */
  lemma Associate(q: string, a: string, d: string, b: string)
    ensures q + (a + d + b) + q == q + a + d + b + q
  {
  }

  /** The characters of Base64 with line breaks (RFC 4648 alphabet, `=` padding). */
  predicate IsBase64Char(c: char) {
    ('A' <= c <= 'Z') || ('a' <= c <= 'z') || ('0' <= c <= '9') || c == '+' || c == '/' || c == '=' || c == '\n'
  }

  predicate IsBase64Text(s: string) {
    forall c :: c in s ==> IsBase64Char(c)
  }

  /** Drops the surrounding quotes OkHttp keeps in a cookie value. */
  function Unquote(s: string): (r: string)
    ensures |s| >= 2 && s[0] == '"' && s[|s| - 1] == '"' ==> "\"" + r + "\"" == s
  {
    if |s| >= 2 && s[0] == '"' && s[|s| - 1] == '"' then s[1..|s| - 1] else s
  }

  /**
   * Reading back a cookie value: for Base64 texts the unquoted value splits into the
   * cipher text and IV (line breaks removed), because '_' is not a Base64 character.
   */
  lemma CookieValueRoundTrip(cipherText: string, iv: string)
    requires '_' !in cipherText && '_' !in iv
    ensures DecryptionParams(Unquote(CookieValue(EncryptionResult(cipherText, Some(iv), true)))) ==
      (Remove(cipherText, '\n'), Some(Remove(iv, '\n')))
  {
    var a, b := Remove(cipherText, '\n'), Remove(iv, '\n');
    Associate("\"", a, IvDelimiter, b);
    UnquoteQuoted(a + IvDelimiter + b);
    DelimiterSplits(a, b);
  }

  /** Halves without '_' are split apart again at the delimiter. */
  lemma DelimiterSplits(a: string, b: string)
    requires '_' !in a && '_' !in b
    ensures DecryptionParams(a + IvDelimiter + b) == (a, Some(b))
  {
    assert IvDelimiter[0] == '_';
    FirstOccurrenceAfter(a, IvDelimiter, b);
    SplitAfter(a, IvDelimiter, b);
    NoLeadCharNoOccurrence(b, IvDelimiter);
    SplitWithout(b, IvDelimiter);
  }

  /**
   * Absence of the delimiter from both halves is not enough for the round trip: a
   * cipher text ending in a proper prefix of the delimiter that the delimiter also
   * ends in makes the first occurrence start inside the cipher text.
   */
  lemma DelimiterFreeHalvesCanMisparse()
    ensures var ct, iv := "x" + "___" + "enc", "iv";
      !Contains(ct, IvDelimiter) && !Contains(iv, IvDelimiter) &&
      DecryptionParams(Unquote(CookieValue(EncryptionResult(ct, Some(iv), true)))).0 != ct
  {
    var under, enc := "___", "enc";
    var ct, iv := "x" + under + enc, "iv";
    var u := ct + IvDelimiter + iv;
    assert !Contains(ct, IvDelimiter) by { assert |ct| < |IvDelimiter|; }
    assert !Contains(iv, IvDelimiter) by { NoLeadCharNoOccurrence(iv, IvDelimiter); }
    assert Unquote(CookieValue(EncryptionResult(ct, Some(iv), true))) == u by {
      assert '\n' !in ct && '\n' !in iv;
      Associate("\"", ct, IvDelimiter, iv);
      UnquoteQuoted(u);
    }
    assert |DecryptionParams(u).0| <= 1 by {
      DelimiterPieces();
      Overlap("x", under, enc, iv);
      OccursAfter("x", IvDelimiter, enc + under + iv);
      CipherTextEndsBefore(u, 1);
    }
  }

  /** The delimiter is "enc" between two runs of three underscores. */
  lemma DelimiterPieces()
    ensures IvDelimiter == "___" + "enc" + "___"
  {
  }

  /** The cipher text read back ends no later than the delimiter's first occurrence. */
  lemma CipherTextEndsBefore(u: string, k: nat)
    requires OccursAt(u, IvDelimiter, k)
    ensures |DecryptionParams(u).0| <= k
  {
    var f := Find(u, IvDelimiter).value;
    assert f <= k;
    assert Split(u, IvDelimiter)[0] == u[..f];
  }

  /** `x p e` followed by `p e p` holds `p e p` again one position after `x`. */
  lemma Overlap(x: string, p: string, e: string, rest: string)
    ensures (x + p + e) + (p + e + p) + rest == x + (p + e + p) + (e + p + rest)
  {
  }

  /** Quoting and unquoting are inverse. */
  lemma UnquoteQuoted(u: string)
    ensures Unquote("\"" + u + "\"") == u
  {
    var v := "\"" + u + "\"";
    assert v[1..|v| - 1] == u;
  }

  // Request side: `withDecryptedCookies`.

  /** One pair of the `Cookie` header; `Err` when it has no '=' and destructuring it throws. */
  function DecryptPair(pair: string, anyEncrypted: bool, c: Cipher): (r: Result<Option<string>, string>)
    ensures r.Err? <==> !Contains(pair, "=")
    ensures r.Ok? && !anyEncrypted ==> r.value == Some(pair)
    ensures r.Ok? && anyEncrypted ==> (r.value.Some? <==> StartsWith(pair, EncryptedCookieKeyPrefix))
  {
    var kv := SplitOnce(pair, "=");
    if |kv| < 2 then Err(pair)
    else
      var key, value := kv[0], kv[1];
      KeyCarriesPrefix(pair, key, value);
      if anyEncrypted && StartsWith(key, EncryptedCookieKeyPrefix) then
        var params := DecryptionParams(value);
        Ok(Some(RemovePrefix(key, EncryptedCookieKeyPrefix) + "=" + c.decrypt(params.0, params.1)))
      else if !anyEncrypted then Ok(Some(pair))
      else Ok(None)
  }

  /** The pair starts with "MxEnc" exactly when its name does, as the prefix holds no '='. */
  lemma KeyCarriesPrefix(pair: string, key: string, value: string)
    requires pair == key + "=" + value
    ensures StartsWith(pair, EncryptedCookieKeyPrefix) <==> StartsWith(key, EncryptedCookieKeyPrefix)
  {
    var prefix := EncryptedCookieKeyPrefix;
    assert pair[|key|] == '=';
    if StartsWith(pair, prefix) {
      assert '=' !in prefix;
      assert forall j :: 0 <= j < |prefix| ==> pair[j] == prefix[j];
      assert |key| >= |prefix|;
      assert pair[..|prefix|] == key[..|prefix|];
    }
    if StartsWith(key, prefix) {
      assert pair[..|prefix|] == key[..|prefix|];
    }
  }

  /** The pairs in order, the dropped ones left out; `Err` at the first pair without '='. */
  function DecryptPairs(pairs: seq<string>, anyEncrypted: bool, c: Cipher): (r: Result<seq<string>, string>)
    ensures r.Ok? <==> AllHaveValues(pairs)
    ensures r.Ok? ==> |r.value| <= |pairs|
    ensures r.Ok? && !anyEncrypted ==> r.value == pairs
    decreases |pairs|
  {
    if |pairs| == 0 then Ok([])
    else
      AllHaveValuesCons(pairs);
      match DecryptPair(pairs[0], anyEncrypted, c)
      case Err(e) => Err(e)
      case Ok(first) =>
        match DecryptPairs(pairs[1..], anyEncrypted, c)
        case Err(e) => Err(e)
        case Ok(rest) =>
          assert pairs == [pairs[0]] + pairs[1..];
          Ok((if first.Some? then [first.value] else []) + rest)
  }

  /** Every pair has a '=' when the first and all the later ones have. */
  lemma AllHaveValuesCons(pairs: seq<string>)
    requires |pairs| > 0
    ensures AllHaveValues(pairs) <==> Contains(pairs[0], "=") && AllHaveValues(pairs[1..])
  {
    var tail := pairs[1..];
    assert forall i :: 0 <= i < |tail| ==> tail[i] == pairs[i + 1];
  }

  /** Every pair has a '=' separating name and value. */
  predicate AllHaveValues(pairs: seq<string>) {
    forall i :: 0 <= i < |pairs| ==> Contains(pairs[i], "=")
  }

  /** Some pair of the header starts with "MxEnc". */
  predicate AnyEncrypted(pairs: seq<string>) {
    exists i :: 0 <= i < |pairs| && StartsWith(pairs[i], EncryptedCookieKeyPrefix)
  }

  /** `removeHeader("Cookie").addHeader("Cookie", value)`. */
  function WithCookieHeader(r: Request, value: string): (r': Request)
    ensures r'.host == r.host && LastValue(r'.headers, CookieHeader) == Some(value)
    ensures forall h :: h in r'.headers && !Named(h, CookieHeader) <==> h in r.headers && !Named(h, CookieHeader)
  {
    WithoutNamedMembers(r.headers, CookieHeader);
    Request(r.host, WithoutNamed(r.headers, CookieHeader) + [Header(CookieHeader, value)])
  }

  /**
   * `withDecryptedCookies`: without a `Cookie` header the request is kept; otherwise
   * its pairs are rebuilt (only the decrypted ones when any is encrypted, all of them
   * otherwise) and, unless the result is blank, become the one `Cookie` header.
   */
  function WithDecryptedCookies(r: Request, c: Cipher): (result: Result<Request, string>)
    ensures LastValue(r.headers, CookieHeader).None? ==> result == Ok(r)
    ensures LastValue(r.headers, CookieHeader).Some? ==>
      (result.Err? <==> !AllHaveValues(Split(LastValue(r.headers, CookieHeader).value, "; ")))
    ensures result.Ok? ==> result.value == r || result.value.host == r.host
  {
    match LastValue(r.headers, CookieHeader)
    case None => Ok(r)
    case Some(header) =>
      var pairs := Split(header, "; ");
      match DecryptPairs(pairs, AnyEncrypted(pairs), c)
      case Err(e) => Err(e)
      case Ok(rebuilt) =>
        var joined := Join(rebuilt, "; ");
        if !IsBlank(joined) then Ok(WithCookieHeader(r, joined)) else Ok(r)
  }

  /** Without encrypted cookies the `Cookie` header keeps its value (it becomes the only one). */
  lemma PlainCookiesKept(r: Request, c: Cipher)
    requires LastValue(r.headers, CookieHeader).Some?
    requires !AnyEncrypted(Split(LastValue(r.headers, CookieHeader).value, "; "))
    requires WithDecryptedCookies(r, c).Ok?
    ensures LastValue(WithDecryptedCookies(r, c).value.headers, CookieHeader) == LastValue(r.headers, CookieHeader)
  {
    JoinSplit(LastValue(r.headers, CookieHeader).value, "; ");
  }

  /** A pair without '=' makes the rewrite throw even when nothing is encrypted. */
  lemma PairWithoutValueThrows(host: string, c: Cipher)
    ensures WithDecryptedCookies(Request(host, [Header(CookieHeader, "a")]), c).Err?
  {
    var headers := [Header(CookieHeader, "a")];
    assert LastValue(headers, CookieHeader) == Some("a");
    var s := "a";
    NoLeadCharNoOccurrence(s, "; ");
    SplitWithout(s, "; ");
    NoLeadCharNoOccurrence(s, "=");
  }

  // Response side: `withEncryptedCookies`.

  /**
   * The encrypted cookie `makeCookie` builds: "MxEnc" and the name, the encrypted
   * value, the same domain (host-only), path and flags. The builder's `expiresAt`
   * always marks it persistent, so a session cookie, which OkHttp parses with the
   * expiry `MAX_DATE`, comes back as a persistent cookie expiring at `MAX_DATE`.
   */
  function EncryptedCookie(k: Cookie, c: Cipher): (r: Cookie)
    ensures r.name == EncryptedCookieName(k.name) && r.hostOnly
    ensures r.domain == k.domain && r.path == k.path && r.httpOnly == k.httpOnly && r.secure == k.secure
    ensures r.persistent
    ensures 0 < k.expiresAt <= MaxDate ==> r.expiresAt == k.expiresAt
    ensures k.expiresAt <= 0 ==> r.expiresAt == LongMin
    ensures !k.persistent && k.expiresAt == MaxDate ==> r.persistent && r.expiresAt == MaxDate
  {
    var e := c.encrypt(k.value);
    Cookie(EncryptedCookieName(k.name), CookieValue(EncryptionResult(e.0, Some(e.1), true)), k.domain, true,
           k.path, k.httpOnly, k.secure, BuiltExpiry(k.expiresAt), true)
  }

  /**
   * The companion that removes the plaintext cookie: the same name, domain (host-only),
   * path and flags, an empty value, and the expiry -1, which the builder turns into
   * `Long.MIN_VALUE` on a persistent cookie.
   */
  function ExpiredCompanion(k: Cookie): (r: Cookie)
    ensures r.name == k.name && r.value == "" && r.hostOnly
    ensures r.expiresAt == LongMin && r.persistent
    ensures r.domain == k.domain && r.path == k.path && r.httpOnly == k.httpOnly && r.secure == k.secure
  {
    Cookie(k.name, "", k.domain, true, k.path, k.httpOnly, k.secure, BuiltExpiry(-1), true)
  }

  /** The `Set-Cookie` headers of the rewritten response: two per cookie, in order. */
  function SetCookies(cookies: seq<Cookie>, c: Cipher, render: Cookie -> string): (hs: seq<Header>)
    ensures |hs| == 2 * |cookies|
    decreases |cookies|
  {
    if |cookies| == 0 then []
    else
      var front := SetCookies(cookies[..|cookies| - 1], c, render);
      var k := cookies[|cookies| - 1];
      front + [Header(SetCookieHeader, render(EncryptedCookie(k, c))), Header(SetCookieHeader, render(ExpiredCompanion(k)))]
  }

  /** Cookie `i`'s encrypted form is header `2 i` and its expired companion header `2 i + 1`. */
  lemma {:induction false} SetCookiesAt(cookies: seq<Cookie>, c: Cipher, render: Cookie -> string, i: nat)
    requires i < |cookies|
    ensures SetCookies(cookies, c, render)[2 * i] == Header(SetCookieHeader, render(EncryptedCookie(cookies[i], c)))
    ensures SetCookies(cookies, c, render)[2 * i + 1] == Header(SetCookieHeader, render(ExpiredCompanion(cookies[i])))
    decreases |cookies|
  {
    var front := cookies[..|cookies| - 1];
    if i < |cookies| - 1 {
      SetCookiesAt(front, c, render, i);
      assert front[i] == cookies[i];
    }
  }

  /** One more cookie adds its two headers at the end. */
  lemma SetCookiesSnoc(cookies: seq<Cookie>, k: Cookie, c: Cipher, render: Cookie -> string)
    ensures SetCookies(cookies + [k], c, render) ==
      SetCookies(cookies, c, render) + [Header(SetCookieHeader, render(EncryptedCookie(k, c))), Header(SetCookieHeader, render(ExpiredCompanion(k)))]
  {
    assert (cookies + [k])[..|cookies|] == cookies;
  }

  /** OkHttp's `Headers.Builder`: a list of headers edited in place. */
  class HeadersBuilder {
    var headers: seq<Header>

    constructor (headers: seq<Header>)
      ensures this.headers == headers
    {
      this.headers := headers;
    }

    method RemoveAll(name: string)
      modifies this
      ensures headers == WithoutNamed(old(headers), name)
    {
      headers := WithoutNamed(headers, name);
    }

    method Add(name: string, value: string)
      modifies this
      ensures headers == old(headers) + [Header(name, value)]
    {
      headers := headers + [Header(name, value)];
    }
  }

  /**
   * `withEncryptedCookies` on a response with headers `headers`, whose cookies
   * `Cookie.parseAll` reads as `cookies`: every `Set-Cookie` header is removed and
   * each cookie's encrypted form and expired companion are appended, in order.
   */
  method WithEncryptedCookies(headers: seq<Header>, cookies: seq<Cookie>, c: Cipher, render: Cookie -> string)
    returns (result: seq<Header>)
    ensures result == WithoutNamed(headers, SetCookieHeader) + SetCookies(cookies, c, render)
  {
    var builder := new HeadersBuilder(headers);
    builder.RemoveAll(SetCookieHeader);
    ghost var kept := builder.headers;
    var i := 0;
    while i < |cookies|
      invariant 0 <= i <= |cookies|
      invariant builder.headers == kept + SetCookies(cookies[..i], c, render)
    {
      var encrypted, expired := EncryptedCookie(cookies[i], c), ExpiredCompanion(cookies[i]);
      TakeSnoc(cookies, i);
      SetCookiesSnoc(cookies[..i], cookies[i], c, render);
      var first, second := Header(SetCookieHeader, render(encrypted)), Header(SetCookieHeader, render(expired));
      AppendAssoc(kept, SetCookies(cookies[..i], c, render), [first, second]);
      AppendTwo(builder.headers, first, second);
      builder.Add(first.name, first.value);
      builder.Add(second.name, second.value);
      i := i + 1;
    }
    assert cookies[..i] == cookies;
    result := builder.headers;
  }

  /** Stepwise facts about sequences, stated generically so that the solver does not unfold the elements. */
  lemma TakeSnoc<X>(s: seq<X>, i: nat)
    requires i < |s|
    ensures s[..i + 1] == s[..i] + [s[i]]
  {
  }

  lemma AppendTwo<X>(a: seq<X>, x: X, y: X)
    ensures (a + [x]) + [y] == a + [x, y]
  {
  }

  lemma AppendAssoc<X>(a: seq<X>, b: seq<X>, c: seq<X>)
    ensures (a + b) + c == a + (b + c)
  {
  }

  // `intercept`.

  /** Where the interceptor sends a request: unchanged and answered unchanged, or with decrypted cookies and an encrypted answer. */
  datatype Route = PassThrough(request: Request) | Encrypting(request: Request)

  /**
   * `intercept`: a request to another host than the runtime URL's passes through;
   * one to the runtime's host goes out with its cookies decrypted, and the response
   * gets `WithEncryptedCookies`.
   */
  function Intercept(r: Request, runtimeHost: string, c: Cipher): (route: Result<Route, string>)
    ensures r.host != runtimeHost ==> route == Ok(PassThrough(r))
    ensures r.host == runtimeHost ==> (route.Ok? <==> WithDecryptedCookies(r, c).Ok?)
    ensures r.host == runtimeHost && route.Ok? ==> route.value == Encrypting(WithDecryptedCookies(r, c).value)
  {
    if runtimeHost != r.host then Ok(PassThrough(r))
    else match WithDecryptedCookies(r, c)
      case Err(e) => Err(e)
      case Ok(decrypted) => Ok(Encrypting(decrypted))
  }

  // The round trip through a cookie jar.

  /**
   * What the cipher is assumed to do: its output is Base64 text, decoding skips the
   * quotes and line breaks, and decrypting inverts encrypting.
   */
  ghost predicate CipherRoundTrips(c: Cipher) {
    (forall v :: IsBase64Text(c.encrypt(v).0) && IsBase64Text(c.encrypt(v).1)) &&
    (forall v :: c.decrypt("\"" + Remove(c.encrypt(v).0, '\n'), Some(Remove(c.encrypt(v).1, '\n') + "\"")) == v)
  }

  /** A cookie name as RFC 6265 allows it: a token, so no '=' and no ';'. */
  predicate IsToken(name: string) {
    '=' !in name && ';' !in name
  }

  /** The pair a cookie jar sends back for a cookie. */
  function PairOf(k: Cookie): string {
    k.name + "=" + k.value
  }

  /** The pairs a cookie jar sends back for cookies, in order. */
  function Pairs(cookies: seq<Cookie>): (ps: seq<string>)
    ensures |ps| == |cookies|
  {
    if |cookies| == 0 then [] else [PairOf(cookies[0])] + Pairs(cookies[1..])
  }

  /** The encrypted forms of cookies, in order. */
  function EncryptedAll(cookies: seq<Cookie>, c: Cipher): (es: seq<Cookie>)
    ensures |es| == |cookies|
  {
    if |cookies| == 0 then [] else [EncryptedCookie(cookies[0], c)] + EncryptedAll(cookies[1..], c)
  }

  /** Pair `i` of the encrypted cookies is cookie `i`'s encrypted pair. */
  lemma EncryptedPairAt(cookies: seq<Cookie>, c: Cipher, i: nat)
    requires i < |cookies|
    ensures Pairs(EncryptedAll(cookies, c))[i] == PairOf(EncryptedCookie(cookies[i], c))
  {
    EncryptedAllAt(cookies, c, i);
    PairsAt(EncryptedAll(cookies, c), i);
  }

  lemma {:induction false} PairsAt(cookies: seq<Cookie>, i: nat)
    requires i < |cookies|
    ensures Pairs(cookies)[i] == PairOf(cookies[i])
    decreases i
  {
    if i > 0 {
      var tail := cookies[1..];
      PairsAt(tail, i - 1);
      ConsIndex(PairOf(cookies[0]), Pairs(tail), i);
      assert tail[i - 1] == cookies[i];
    }
  }

  lemma {:induction false} EncryptedAllAt(cookies: seq<Cookie>, c: Cipher, i: nat)
    requires i < |cookies|
    ensures EncryptedAll(cookies, c)[i] == EncryptedCookie(cookies[i], c)
    decreases i
  {
    if i > 0 {
      var tail := cookies[1..];
      EncryptedAllAt(tail, c, i - 1);
      ConsIndex(EncryptedCookie(cookies[0], c), EncryptedAll(tail, c), i);
      assert tail[i - 1] == cookies[i];
    }
  }

  /**
   * Cookies the response side encrypted come back decrypted: a request to the
   * runtime carrying the encrypted cookies (the expired companions are gone from the
   * jar) leaves with a `Cookie` header of the original pairs.
   */
  lemma JarRoundTrip(host: string, others: seq<Header>, cookies: seq<Cookie>, c: Cipher)
    requires CipherRoundTrips(c)
    requires |cookies| > 0 && forall i :: 0 <= i < |cookies| ==> IsToken(cookies[i].name)
    requires forall i :: 0 <= i < |others| ==> !Named(others[i], CookieHeader)
    ensures var sent := Request(host, others + [Header(CookieHeader, Join(Pairs(EncryptedAll(cookies, c)), "; "))]);
      WithDecryptedCookies(sent, c).Ok? &&
      LastValue(WithDecryptedCookies(sent, c).value.headers, CookieHeader) == Some(Join(Pairs(cookies), "; "))
  {
    var encrypted := Pairs(EncryptedAll(cookies, c));
    var header := Join(encrypted, "; ");
    var sent := Request(host, others + [Header(CookieHeader, header)]);
    assert LastValue(sent.headers, CookieHeader) == Some(header) by {
      assert sent.headers[..|sent.headers| - 1] == others;
    }
    forall i | 0 <= i < |encrypted| ensures ';' !in encrypted[i] {
      EncryptedPairAt(cookies, c, i);
      EncryptedPairFree(cookies[i], c);
    }
    SplitJoin(encrypted, "; ");
    assert AnyEncrypted(encrypted) by {
      EncryptedPairAt(cookies, c, 0);
      EncryptedPairDecrypts(cookies[0], c);
      assert StartsWith(encrypted[0], EncryptedCookieKeyPrefix);
    }
    DecryptAll(cookies, c);
    NotBlank(Pairs(cookies), cookies[0]);
  }

  /** The encrypted value as `CookieValue` lays it out: the cipher text and IV, line breaks removed, around the delimiter, quoted. */
  lemma EncryptedValue(k: Cookie, c: Cipher)
    ensures var e := c.encrypt(k.value);
      EncryptedCookie(k, c).value == "\"" + (Remove(e.0, '\n') + IvDelimiter + Remove(e.1, '\n')) + "\""
  {
    var e := c.encrypt(k.value);
    Associate("\"", Remove(e.0, '\n'), IvDelimiter, Remove(e.1, '\n'));
  }

  /** The encrypted cookie's pair holds no ';'. */
  lemma EncryptedPairFree(k: Cookie, c: Cipher)
    requires CipherRoundTrips(c) && IsToken(k.name)
    ensures ';' !in PairOf(EncryptedCookie(k, c))
  {
    var e := c.encrypt(k.value);
    assert IsBase64Text(e.0) && IsBase64Text(e.1);
    var a, b := Remove(e.0, '\n'), Remove(e.1, '\n');
    assert ';' !in a && ';' !in b;
    assert ';' !in IvDelimiter && ';' !in EncryptedCookieKeyPrefix;
    var middle := a + IvDelimiter + b;
    assert ';' !in middle;
    EncryptedValue(k, c);
    var n, v := EncryptedCookie(k, c).name, EncryptedCookie(k, c).value;
    assert ';' !in v;
    assert n == EncryptedCookieKeyPrefix + k.name;
    assert ';' !in n;
    assert PairOf(EncryptedCookie(k, c)) == n + "=" + v;
  }

  /** One encrypted cookie's pair decrypts to the original pair. */
  lemma EncryptedPairDecrypts(k: Cookie, c: Cipher)
    requires CipherRoundTrips(c) && IsToken(k.name)
    ensures StartsWith(PairOf(EncryptedCookie(k, c)), EncryptedCookieKeyPrefix)
    ensures DecryptPair(PairOf(EncryptedCookie(k, c)), true, c) == Ok(Some(PairOf(k)))
  {
    var e := c.encrypt(k.value);
    assert IsBase64Text(e.0) && IsBase64Text(e.1);
    var key := EncryptedCookieName(k.name);
    var a, b := Remove(e.0, '\n'), Remove(e.1, '\n');
    var value := "\"" + (a + IvDelimiter + b) + "\"";
    EncryptedValue(k, c);
    var p := key + "=" + value;
    assert '=' !in key by { assert '=' !in EncryptedCookieKeyPrefix; }
    KeyValueSplits(key, value);
    KeyCarriesPrefix(p, key, value);
    assert '_' !in "\"" + a && '_' !in b + "\"";
    Associate3("\"", a, IvDelimiter, b);
    DelimiterSplits("\"" + a, b + "\"");
    assert RemovePrefix(key, EncryptedCookieKeyPrefix) == k.name;
  }

  /** A name without '=' is split off its value at the first '='. */
  lemma KeyValueSplits(key: string, value: string)
    requires '=' !in key
    ensures SplitOnce(key + "=" + value, "=") == [key, value]
  {
    var p := key + "=" + value;
    FirstOccurrenceAfter(key, "=", value);
    assert p[|key| + 1..] == value;
    assert p[..|key|] == key;
  }

  /** Concatenation regrouped around the delimiter; stated over variables so that no literal is unfolded. */
  lemma Associate3(q: string, a: string, d: string, b: string)
    ensures q + (a + d + b) + q == (q + a) + d + (b + q)
  {
  }

  /** Every encrypted pair decrypts, in order. */
  lemma {:induction false} DecryptAll(cookies: seq<Cookie>, c: Cipher)
    requires CipherRoundTrips(c) && forall i :: 0 <= i < |cookies| ==> IsToken(cookies[i].name)
    ensures DecryptPairs(Pairs(EncryptedAll(cookies, c)), true, c) == Ok(Pairs(cookies))
    decreases |cookies|
  {
    if |cookies| > 0 {
      var k := cookies[0];
      EncryptedPairDecrypts(k, c);
      DecryptAll(cookies[1..], c);
      assert Pairs(EncryptedAll(cookies, c)) == [PairOf(EncryptedCookie(k, c))] + Pairs(EncryptedAll(cookies[1..], c));
      DecryptPairsCons(PairOf(EncryptedCookie(k, c)), Pairs(EncryptedAll(cookies[1..], c)), true, c, PairOf(k));
    }
  }

  /** A pair that decrypts goes in front of what the rest decrypts to. */
  lemma DecryptPairsCons(p: string, ps: seq<string>, anyEncrypted: bool, c: Cipher, v: string)
    requires DecryptPair(p, anyEncrypted, c) == Ok(Some(v))
    requires DecryptPairs(ps, anyEncrypted, c).Ok?
    ensures DecryptPairs([p] + ps, anyEncrypted, c) == Ok([v] + DecryptPairs(ps, anyEncrypted, c).value)
  {
    assert ([p] + ps)[0] == p;
    assert ([p] + ps)[1..] == ps;
  }

  /** Joined pairs that contain '=' are not blank. */
  lemma NotBlank(ps: seq<string>, k: Cookie)
    requires |ps| > 0 && ps[0] == PairOf(k)
    ensures !IsBlank(Join(ps, "; "))
  {
    var j := Join(ps, "; ");
    assert j[|k.name|] == '=' by {
      if |ps| > 1 {
        assert j == ps[0] + "; " + Join(ps[1..], "; ");
      }
    }
    assert !IsKotlinWhitespace(j[|k.name|]);
  }
}
