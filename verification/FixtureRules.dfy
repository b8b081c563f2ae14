/**
 The rules both fixture tools share: header names, normalised field names and the
 four credential patterns. With them the redactor provably satisfies the gate.
 */
module FixtureRules {
  import opened Fixtures
  import opened FixtureDocuments

  /** Which characters beyond ASCII the Unicode database calls alphanumeric. */
  type Letters = char -> bool

  // ------------------------------------------------------------------- names

  const FORBIDDEN_HEADERS: set<string> := {
    "authorization", "cookie", "proxy-authorization", "set-cookie", "x-api-key", "x-csrf-token", "x-xsrf-token"
  }

  const SENSITIVE_KEYS: set<string> := {
    "accesstoken", "apikey", "authorization", "clientsecret", "cookie", "password", "privatekey", "refreshtoken",
    "secret", "session", "sessionid", "token"
  }

  /**
   One character in lower case. The Kelvin sign and the dotted capital I are the only characters beyond ASCII whose
   lower case has an ASCII letter in it; all others are kept, which no name in the sets can tell apart.
   */
  function LowerChar(c: char): string {
    if 'A' <= c <= 'Z' then [(c as int + 32) as char]
    else if c == '\U{212A}' then "k"
    else if c == '\U{130}' then "i\U{307}"
    else [c]
  }

  function Lower(s: string): string {
    if s == "" then "" else LowerChar(s[0]) + Lower(s[1..])
  }

  predicate IsPlain(c: char) {
    'a' <= c <= 'z' || '0' <= c <= '9'
  }

  function Plain(s: string): string {
    if s == "" then "" else (if IsPlain(s[0]) then [s[0]] else "") + Plain(s[1..])
  }

  /** Lower case, letters and digits only. */
  function NormalizedKey(s: string): string {
    Plain(Lower(s))
  }

  // ----------------------------------------------------------------- patterns

  predicate IsAsciiWord(c: char) {
    'a' <= c <= 'z' || 'A' <= c <= 'Z' || '0' <= c <= '9' || c == '_'
  }

  predicate IsWord(c: char, letters: Letters) {
    IsAsciiWord(c) || (c > '\U{7F}' && letters(c))
  }

  /** A word starts or ends at `i`. */
  predicate Boundary(s: string, i: nat, letters: Letters)
    requires i <= |s|
  {
    (i > 0 && IsWord(s[i - 1], letters)) != (i < |s| && IsWord(s[i], letters))
  }

  /** White space as Python's `\s` takes it. */
  predicate IsBlank(c: char) {
    || '\t' <= c <= '\r' || '\U{1C}' <= c <= ' ' || c == '\U{85}' || c == '\U{A0}' || c == '\U{1680}'
    || '\U{2000}' <= c <= '\U{200A}' || c == '\U{2028}' || c == '\U{2029}' || c == '\U{202F}'
    || c == '\U{205F}' || c == '\U{3000}'
  }

  /** Case folding of the patterns that ignore case, as far as it reaches ASCII letters. */
  function Fold(c: char): char {
    if 'A' <= c <= 'Z' then (c as int + 32) as char
    else if c == '\U{17F}' then 's'
    else if c == '\U{130}' || c == '\U{131}' then 'i'
    else if c == '\U{212A}' then 'k'
    else c
  }

  predicate IsBearerChar(c: char) {
    IsPlain(Fold(c)) || c in "._~+/=-"
  }

  predicate IsBasicChar(c: char) {
    IsPlain(Fold(c)) || c in "+/="
  }

  predicate IsTokenChar(c: char) {
    IsAsciiWord(c) || c == '-'
  }

  predicate AllFrom(s: string, i: nat, j: nat, allowed: char -> bool)
    requires i <= j <= |s|
  {
    forall k :: i <= k < j ==> allowed(s[k])
  }

  predicate Spells(s: string, i: nat, word: string)
    requires i + |word| <= |s|
  {
    forall k :: 0 <= k < |word| ==> Fold(s[i + k]) == word[k]
  }

  /** At `i` the scheme word, white space up to `k`, and eight characters of a credential. */
  predicate SchemeAt(s: string, i: nat, k: nat, word: string, allowed: char -> bool, letters: Letters) {
    && i + |word| < k && k + 8 <= |s|
    && Boundary(s, i, letters) && Spells(s, i, word)
    && AllFrom(s, i + |word|, k, IsBlank) && AllFrom(s, k, k + 8, allowed)
  }

  /** At `i` a web token: three runs of at least eight characters, ending at the dots `j` and `k` and at `e`. */
  predicate WebTokenAt(s: string, i: nat, j: nat, k: nat, e: nat, letters: Letters) {
    && i + 11 <= j && j + 9 <= k && k + 9 <= e <= |s|
    && s[i..i + 3] == "eyJ" && s[j] == '.' && s[k] == '.'
    && Boundary(s, i, letters) && Boundary(s, e, letters)
    && AllFrom(s, i + 3, j, IsTokenChar) && AllFrom(s, j + 1, k, IsTokenChar) && AllFrom(s, k + 1, e, IsTokenChar)
  }

  const KEY_KINDS: seq<string> := ["", "RSA ", "EC ", "OPENSSH "]

  predicate KeyHeaderAt(s: string, i: nat) {
    i <= |s| && exists n :: 0 <= n < |KEY_KINDS| && "-----BEGIN " + KEY_KINDS[n] + "PRIVATE KEY-----" <= s[i..]
  }

  ghost predicate Credential(s: string, letters: Letters) {
    || (exists i :: KeyHeaderAt(s, i))
    || (exists i, k :: SchemeAt(s, i, k, "bearer", IsBearerChar, letters))
    || (exists i, k :: SchemeAt(s, i, k, "basic", IsBasicChar, letters))
    || (exists i, j, k, e :: WebTokenAt(s, i, j, k, e, letters))
  }

  /** The rules as the two scripts have them. */
  ghost function SharedRules(letters: Letters): Policy {
    Policy(name => Lower(name) in FORBIDDEN_HEADERS, key => NormalizedKey(key) in SENSITIVE_KEYS,
           text => Credential(text, letters))
  }

  // --------------------------------------------------------- what they see

  lemma {:induction false} LowerJoin(a: string, b: string)
    ensures Lower(a + b) == Lower(a) + Lower(b)
  {
    if a == "" {
      assert a + b == b;
    } else {
      var head := LowerChar(a[0]);
      assert (a + b)[0] == a[0] && (a + b)[1..] == a[1..] + b;
      LowerJoin(a[1..], b);
      assert Lower(a) == head + Lower(a[1..]);
      assert Lower(a + b) == head + Lower(a[1..] + b);
    }
  }

  lemma {:induction false} PlainJoin(a: string, b: string)
    ensures Plain(a + b) == Plain(a) + Plain(b)
  {
    if a == "" {
      assert a + b == b;
    } else {
      var head := (if IsPlain(a[0]) then [a[0]] else "");
      assert (a + b)[0] == a[0] && (a + b)[1..] == a[1..] + b;
      PlainJoin(a[1..], b);
      assert Plain(a) == head + Plain(a[1..]);
      assert Plain(a + b) == head + Plain(a[1..] + b);
    }
  }

  /** Separators, wherever they are put, do not hide a field name. */
  lemma SeparatorsDoNotHide(a: string, separator: string, b: string)
    requires NormalizedKey(separator) == ""
    ensures NormalizedKey(a + separator + b) == NormalizedKey(a + b)
  {
    LowerJoin(a, b);
    LowerJoin(a, separator);
    LowerJoin(a + separator, b);
    PlainJoin(Lower(a), Lower(b));
    PlainJoin(Lower(a), Lower(separator));
    PlainJoin(Lower(a) + Lower(separator), Lower(b));
  }

  /** A bearer token is seen wherever it stands on its own, in any case of the word. */
  lemma BearerSeen(before: string, word: string, token: string, after: string, letters: Letters)
    requires before == "" || !IsWord(before[|before| - 1], letters)
    requires |word| == 6 && Spells(word, 0, "bearer") && IsWord(word[0], letters)
    requires |token| >= 8 && AllFrom(token, 0, 8, IsBearerChar)
    ensures Credential(before + word + " " + token + after, letters)
  {
    var s, i := before + word + " " + token + after, |before|;
    assert forall k :: 0 <= k < 6 ==> s[i + k] == word[k];
    assert forall k :: i + 7 <= k < i + 15 ==> s[k] == token[k - i - 7];
    assert s[i + 6] == ' ';
    assert SchemeAt(s, i, i + 7, "bearer", IsBearerChar, letters);
  }

  // --------------------------------------------------- redactor against gate

  /** Every pattern needs more characters than the marker has. */
  lemma MarkerIsSafe(letters: Letters)
    ensures MarkerSafe(SharedRules(letters))
  {
    assert |REDACTED| == 10;
    forall i ensures !KeyHeaderAt(REDACTED, i) {}
    forall i, j, k, e ensures !WebTokenAt(REDACTED, i, j, k, e, letters) {}
    forall i, k ensures !SchemeAt(REDACTED, i, k, "bearer", IsBearerChar, letters) {}
    forall i, k ensures !SchemeAt(REDACTED, i, k, "basic", IsBasicChar, letters) {}
  }

  /** Under these rules the validator finds nothing in a redacted tree. */
  lemma RedactedTreePasses(t: Tree, location: string, letters: Letters)
    ensures Inspect(SharedRules(letters), Redacted(SharedRules(letters), t), location) == []
  {
    MarkerIsSafe(letters);
    RedactedPasses(SharedRules(letters), t, location);
  }

  /** It passes a tree exactly when redaction would change nothing, and exactly when it would record nothing. */
  lemma TreePassesExactly(t: Tree, location: string, letters: Letters)
    ensures var rules := SharedRules(letters);
            && (Inspect(rules, t, location) == [] <==> Redacted(rules, t) == t)
            && (Inspect(rules, t, location) == [] <==> TreeRecords(rules, t, location) == [])
  {
    MarkerIsSafe(letters);
    PassesExactly(SharedRules(letters), t, location);
  }

  /** A redacted fixture raises none of the gate's secret-related errors, and redacting it again is a no-op. */
  lemma RedactedFixturePasses(d: Document, letters: Letters)
    ensures var rules := SharedRules(letters);
            RedactedDocument(rules, d).Some? ==>
              && DocumentFindings(rules, RedactedDocument(rules, d).value) == []
              && RedactedDocument(rules, RedactedDocument(rules, d).value) == RedactedDocument(rules, d)
  {
    var rules := SharedRules(letters);
    MarkerIsSafe(letters);
    if RedactedDocument(rules, d).Some? {
      RedactedDocumentPasses(rules, d);
      RedactionIdempotent(rules, d);
    }
  }

  // ----------------------------------------------- more of what the rules see

  /** A field name is read letter by letter: letters in lower case, digits as they are, the rest of ASCII dropped. */
  lemma KeyByLetter(s: string, c: char)
    requires c < '\U{80}'
    ensures NormalizedKey(s + [c]) == NormalizedKey(s) +
              if 'A' <= c <= 'Z' then [(c as int - 'A' as int + 'a' as int) as char]
              else if 'a' <= c <= 'z' || '0' <= c <= '9' then [c]
              else ""
  {
    LowerJoin(s, [c]);
    PlainJoin(Lower(s), Lower([c]));
    assert Lower([c]) == LowerChar(c) + Lower("");
    assert Plain(Lower([c])) == (if IsPlain(Lower([c])[0]) then [Lower([c])[0]] else "") + Plain("");
  }

  /** Basic credentials are seen in the same way. */
  lemma BasicSeen(before: string, word: string, token: string, after: string, letters: Letters)
    requires before == "" || !IsWord(before[|before| - 1], letters)
    requires |word| == 5 && Spells(word, 0, "basic") && IsWord(word[0], letters)
    requires |token| >= 8 && AllFrom(token, 0, 8, IsBasicChar)
    ensures Credential(before + word + " " + token + after, letters)
  {
    var s, i := before + word + " " + token + after, |before|;
    assert forall k :: 0 <= k < 5 ==> s[i + k] == word[k];
    assert forall k :: i + 6 <= k < i + 14 ==> s[k] == token[k - i - 6];
    assert s[i + 5] == ' ';
    assert SchemeAt(s, i, i + 6, "basic", IsBasicChar, letters);
  }

  /** A private key header of any of the four kinds is seen wherever it stands. */
  lemma KeyHeaderSeen(before: string, kind: nat, after: string, letters: Letters)
    requires kind < |KEY_KINDS|
    ensures Credential(before + ("-----BEGIN " + KEY_KINDS[kind] + "PRIVATE KEY-----") + after, letters)
  {
    var header := "-----BEGIN " + KEY_KINDS[kind] + "PRIVATE KEY-----";
    var s := before + header + after;
    assert s[|before|..] == header + after;
    assert KeyHeaderAt(s, |before|);
  }

  lemma SameThroughout(s: string, i: nat, j: nat, piece: string, allowed: char -> bool)
    requires i <= j <= |s| && s[i..j] == piece && AllFrom(piece, 0, |piece|, allowed)
    ensures AllFrom(s, i, j, allowed)
  {
    forall k | i <= k < j ensures allowed(s[k]) {
      assert s[k] == piece[k - i];
    }
  }

  /** So is a web token standing on its own: three dotted runs `a`, `b` and `c` of at least eight characters. */
  lemma WebTokenSeen(s: string, i: nat, j: nat, k: nat, e: nat, a: string, b: string, c: string, letters: Letters)
    requires i + 11 <= j && j + 9 <= k && k + 9 <= e <= |s|
    requires s[i..i + 3] == "eyJ" && s[j..j + 1] == "." && s[k..k + 1] == "."
    requires s[i + 3..j] == a && s[j + 1..k] == b && s[k + 1..e] == c
    requires AllFrom(a, 0, |a|, IsTokenChar) && AllFrom(b, 0, |b|, IsTokenChar) && AllFrom(c, 0, |c|, IsTokenChar)
    requires i == 0 || !IsWord(s[i - 1], letters)
    requires e == |s| || !IsWord(s[e], letters)
    requires IsWord(c[|c| - 1], letters)
    ensures Credential(s, letters)
  {
    SameThroughout(s, i + 3, j, a, IsTokenChar);
    SameThroughout(s, j + 1, k, b, IsTokenChar);
    SameThroughout(s, k + 1, e, c, IsTokenChar);
    assert s[i] == s[i..i + 3][0] && s[j] == s[j..j + 1][0] && s[k] == s[k..k + 1][0];
    assert s[e - 1] == c[|c| - 1];
    assert WebTokenAt(s, i, j, k, e, letters);
  }
}
