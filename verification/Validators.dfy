/**
 Normalising observable values. The patterns are scanners over the string; domain and host names follow section 2.3.1
 of RFC 1035 as relaxed by section 2.1 of RFC 1123. A trailing `$` of a Python pattern also matches before a final
 newline, and trailing dots are removed after the whitespace, so a newline can survive in front of trailing dots.
 */
module Validators {
  import opened Wrappers
  import opened Splitting

  datatype ObservableType = Ip | Domain | Hostname | Url | HashMd5 | HashSha1 | HashSha256 | Email | Filename | RegistryKey

  // ---------- Characters ----------

  /** What `str.strip` removes. */
  predicate Space(c: char) {
    || '\t' <= c <= '\r' || '\U{1c}' <= c <= ' ' || c == '\U{85}' || c == '\U{a0}' || c == '\U{1680}'
    || '\U{2000}' <= c <= '\U{200a}' || c == '\U{2028}' || c == '\U{2029}' || c == '\U{202f}' || c == '\U{205f}'
    || c == '\U{3000}'
  }

  predicate Letter(c: char) {
    'a' <= c <= 'z' || 'A' <= c <= 'Z'
  }

  predicate Digit(c: char) {
    '0' <= c <= '9'
  }

  predicate Hex(c: char) {
    Digit(c) || 'a' <= c <= 'f' || 'A' <= c <= 'F'
  }

  predicate LowerHex(c: char) {
    Digit(c) || 'a' <= c <= 'f'
  }

  predicate Upper(c: char) {
    'A' <= c <= 'Z'
  }

  /** `str.lower` on a character. The Kelvin sign is the only one outside ASCII whose lower case is an ASCII letter. */
  function LowerChar(c: char): char {
    if Upper(c) then (c as int + 32) as char else if c == '\U{212a}' then 'k' else c
  }

  // ---------- Strings ----------

  function Lower(s: string): (r: string) {
    seq(|s|, i requires 0 <= i < |s| => LowerChar(s[i]))
  }

  function StripLeft(s: string): string {
    if s != "" && Space(s[0]) then StripLeft(s[1..]) else s
  }

  function StripRight(s: string): string {
    if s != "" && Space(s[|s| - 1]) then StripRight(s[..|s| - 1]) else s
  }

  function Strip(s: string): string {
    StripRight(StripLeft(s))
  }

  /** `rstrip(".")` */
  function TrimDots(s: string): string {
    if s != "" && s[|s| - 1] == '.' then TrimDots(s[..|s| - 1]) else s
  }

  // ---------- The patterns ----------

  predicate All(s: string, p: char -> bool) {
    forall i :: 0 <= i < |s| ==> p(s[i])
  }

  /** `(?!-)[A-Za-z0-9-]{1,63}(?<!-)` */
  predicate Label(s: string) {
    && 1 <= |s| <= 63 && All(s, c => Letter(c) || Digit(c) || c == '-')
    && s[0] != '-' && s[|s| - 1] != '-'
  }

  /** `[A-Za-z]{2,63}` */
  predicate TopLevel(s: string) {
    2 <= |s| <= 63 && All(s, Letter)
  }

  /** `(?:LABEL\.)+TOP`, on the parts between the dots. */
  predicate DomainParts(parts: seq<string>) {
    && |parts| >= 2 && TopLevel(parts[|parts| - 1])
    && forall i :: 0 <= i < |parts| - 1 ==> Label(parts[i])
  }

  /** `LABEL(?:\.LABEL)*` */
  predicate HostParts(parts: seq<string>) {
    |parts| >= 1 && forall i :: 0 <= i < |parts| ==> Label(parts[i])
  }

  predicate FullDomain(v: string) {
    DomainParts(Split('.', v))
  }

  predicate FullHost(v: string) {
    HostParts(Split('.', v))
  }

  /** A pattern that ends in `$` matches the whole string, or all of it but a final newline. */
  predicate EndsHere(v: string, full: string -> bool) {
    full(v) || (EndsInNewline(v) && full(v[..|v| - 1]))
  }

  predicate EndsInNewline(v: string) {
    v != "" && v[|v| - 1] == '\n'
  }

  /** Where the first `@` is. */
  function At(v: string): nat {
    if v == "" || v[0] == '@' then 0 else 1 + At(v[1..])
  }

  /** `[A-Za-z0-9._%+\-]+@` followed by a domain; the labels of the e-mail pattern are those of the domain pattern. */
  predicate FullEmail(v: string) {
    var at := At(v);
    && 1 <= at < |v|
    && All(v[..at], c => Letter(c) || Digit(c) || c in "._%+-")
    && FullDomain(v[at + 1..])
  }

  predicate FullHex(v: string, n: nat) {
    |v| == n && All(v, Hex)
  }

  // ---------- The normalisers ----------

  function NormalizeDomain(value: string): Result<string> {
    var v := TrimDots(Lower(Strip(value)));
    if EndsHere(v, FullDomain) then Ok(v) else Err(BadRequest)
  }

  function NormalizeHostname(value: string): Result<string> {
    var v := TrimDots(Lower(Strip(value)));
    if v != "" && EndsHere(v, FullHost) then Ok(v) else Err(BadRequest)
  }

  function NormalizeEmail(value: string): Result<string> {
    var v := Lower(Strip(value));
    if EndsHere(v, FullEmail) then Ok(v) else Err(BadRequest)
  }

  function NormalizeHash(value: string, n: nat): Result<string> {
    var v := Lower(Strip(value));
    if EndsHere(v, s => FullHex(s, n)) then Ok(v) else Err(BadRequest)
  }

  /** The normalisers of addresses, URLs, file names and registry keys; they rest on libraries. */
  type Library = (ObservableType, string) -> Result<string>

  function HashLength(kind: ObservableType): nat {
    match kind
    case HashMd5 => 32
    case HashSha1 => 40
    case HashSha256 => 64
    case _ => 0
  }

  function ValidateObservable(library: Library, kind: ObservableType, value: string): Result<string> {
    match kind
    case Domain => NormalizeDomain(value)
    case Hostname => NormalizeHostname(value)
    case Email => NormalizeEmail(value)
    case HashMd5 => NormalizeHash(value, HashLength(kind))
    case HashSha1 => NormalizeHash(value, HashLength(kind))
    case HashSha256 => NormalizeHash(value, HashLength(kind))
    case _ => library(kind, value)
  }

  // ---------- The scanners agree with the patterns ----------

  lemma LabelsAreDotFree(parts: seq<string>)
    requires forall i :: 0 <= i < |parts| ==> Label(parts[i]) || TopLevel(parts[i])
    ensures forall i :: 0 <= i < |parts| ==> Free('.', parts[i])
  {
    forall i | 0 <= i < |parts| ensures Free('.', parts[i]) {
      var s := parts[i];
      forall k | 0 <= k < |s| ensures s[k] != '.' {
        assert Letter(s[k]) || Digit(s[k]) || s[k] == '-';
      }
    }
  }

  /** A string is a domain exactly when it can be written as labels and a top-level name, joined by dots. */
  lemma DomainIffDecomposes(v: string)
    ensures FullDomain(v) <==> exists parts: seq<string> :: parts != [] && DomainParts(parts) && Join('.', parts) == v
  {
    SplitJoins('.', v);
    forall parts: seq<string> | parts != [] && DomainParts(parts) && Join('.', parts) == v ensures FullDomain(v) {
      LabelsAreDotFree(parts);
      JoinSplits('.', parts);
    }
  }

  lemma HostIffDecomposes(v: string)
    ensures FullHost(v) <==> exists parts: seq<string> :: parts != [] && HostParts(parts) && Join('.', parts) == v
  {
    SplitJoins('.', v);
    forall parts: seq<string> | parts != [] && HostParts(parts) && Join('.', parts) == v ensures FullHost(v) {
      LabelsAreDotFree(parts);
      JoinSplits('.', parts);
    }
  }

  // ---------- Accepted values have plain characters ----------

  predicate Plain(c: char) {
    Letter(c) || Digit(c) || c == '-' || c == '.'
  }

  lemma {:induction false} JoinIsPlain(parts: seq<string>)
    requires parts != [] && forall i :: 0 <= i < |parts| ==> All(parts[i], Plain)
    ensures All(Join('.', parts), Plain)
    decreases |parts|
  {
    if |parts| > 1 {
      JoinIsPlain(parts[..|parts| - 1]);
    }
  }

  lemma {:induction false} JoinEnds(parts: seq<string>)
    requires parts != [] && parts[|parts| - 1] != ""
    ensures Join('.', parts) != "" && Join('.', parts)[|Join('.', parts)| - 1] == parts[|parts| - 1][|parts[|parts| - 1]| - 1]
  {}

  /** Domains and host names consist of letters, digits, hyphens and dots, and do not end in a dot. */
  lemma NamesArePlain(v: string)
    requires FullDomain(v) || FullHost(v)
    ensures v != "" && All(v, Plain) && v[|v| - 1] != '.'
  {
    var parts := Split('.', v);
    SplitJoins('.', v);
    forall i | 0 <= i < |parts| ensures parts[i] != "" && All(parts[i], Plain) {
      assert Label(parts[i]) || TopLevel(parts[i]);
    }
    JoinIsPlain(parts);
    JoinEnds(parts);
    assert parts[|parts| - 1] in parts && Free('.', parts[|parts| - 1]);
  }

  // ---------- Fixed points ----------

  lemma LowerIsLower(s: string)
    ensures Lower(Lower(s)) == Lower(s)
  {}

  lemma {:induction false} StripLeftIs(s: string)
    ensures StripLeft(s) == "" || !Space(StripLeft(s)[0])
    decreases |s|
  {
    if s != "" && Space(s[0]) { StripLeftIs(s[1..]); }
  }

  lemma {:induction false} StripRightIs(s: string)
    ensures StripRight(s) == "" || !Space(StripRight(s)[|StripRight(s)| - 1])
    ensures StripRight(s) != "" ==> s != "" && StripRight(s)[0] == s[0]
    decreases |s|
  {
    if s != "" && Space(s[|s| - 1]) { StripRightIs(s[..|s| - 1]); }
  }

  predicate Stripped(s: string) {
    s == "" || (!Space(s[0]) && !Space(s[|s| - 1]))
  }

  lemma StripStrips(s: string)
    ensures Stripped(Strip(s))
  {
    StripLeftIs(s);
    StripRightIs(StripLeft(s));
  }

  lemma StrippedIsFixed(s: string)
    requires Stripped(s)
    ensures Strip(s) == s
  {}

  lemma LowerKeepsSpace(c: char)
    ensures Space(LowerChar(c)) <==> Space(c)
    ensures LowerChar(c) == '.' <==> c == '.'
    ensures LowerChar(c) == '\n' <==> c == '\n'
  {}

  lemma LowerKeepsStripped(s: string)
    requires Stripped(s)
    ensures Stripped(Lower(s))
  {
    if s != "" {
      LowerKeepsSpace(s[0]);
      LowerKeepsSpace(s[|s| - 1]);
    }
  }

  lemma {:induction false} TrimDotsIs(s: string)
    ensures |TrimDots(s)| <= |s| && TrimDots(s) == s[..|TrimDots(s)|]
    ensures TrimDots(s) == "" || TrimDots(s)[|TrimDots(s)| - 1] != '.'
    decreases |s|
  {
    if s != "" && s[|s| - 1] == '.' { TrimDotsIs(s[..|s| - 1]); }
  }

  lemma {:induction false} TrimDotsOfLower(s: string)
    ensures TrimDots(Lower(s)) == Lower(TrimDots(s))
    decreases |s|
  {
    if s != "" {
      LowerKeepsSpace(s[|s| - 1]);
      assert Lower(s)[..|s| - 1] == Lower(s[..|s| - 1]);
      if s[|s| - 1] == '.' { TrimDotsOfLower(s[..|s| - 1]); }
    }
  }

  /** The input has a newline, then dots, then only whitespace. */
  predicate NewlineBeforeDots(value: string) {
    EndsInNewline(TrimDots(Strip(value)))
  }

  lemma LoweredName(value: string)
    ensures TrimDots(Lower(Strip(value))) == Lower(TrimDots(Strip(value)))
    ensures EndsInNewline(TrimDots(Lower(Strip(value)))) <==> NewlineBeforeDots(value)
  {
    var t := TrimDots(Strip(value));
    TrimDotsOfLower(Strip(value));
    if t != "" { LowerKeepsSpace(t[|t| - 1]); }
  }

  lemma PlainIsStripped(v: string)
    requires v != "" && All(v, Plain)
    ensures Stripped(v) && !EndsInNewline(v)
  {
    assert Plain(v[0]) && Plain(v[|v| - 1]);
  }

  /** A name without final newline comes back as it is; one with a final newline loses it. */
  lemma NameAgain(v: string, full: string -> bool)
    requires full == FullDomain || full == FullHost
    requires Lower(v) == v && EndsHere(v, full)
    ensures !EndsInNewline(v) ==> TrimDots(Lower(Strip(v))) == v
    ensures EndsInNewline(v) ==> TrimDots(Lower(Strip(v))) != v
  {
    if full(v) {
      NamesArePlain(v);
      PlainIsStripped(v);
      StrippedIsFixed(v);
    } else {
      TrimDotsIs(Lower(Strip(v)));
      StrippedHasNoNewline(v);
    }
  }

  lemma StrippedHasNoNewline(v: string)
    requires EndsInNewline(v)
    ensures |Strip(v)| < |v|
  {
    StripLeftShort(v);
    var l := StripLeft(v);
    if l != "" {
      StripLeftEnds(v);
      StripRightShort(l[..|l| - 1]);
    }
  }

  lemma {:induction false} StripLeftShort(s: string)
    ensures |StripLeft(s)| <= |s|
    decreases |s|
  {
    if s != "" && Space(s[0]) { StripLeftShort(s[1..]); }
  }

  lemma {:induction false} StripRightShort(s: string)
    ensures |StripRight(s)| <= |s|
    decreases |s|
  {
    if s != "" && Space(s[|s| - 1]) { StripRightShort(s[..|s| - 1]); }
  }

  lemma {:induction false} StripLeftEnds(s: string)
    requires StripLeft(s) != ""
    ensures s != "" && StripLeft(s)[|StripLeft(s)| - 1] == s[|s| - 1]
    decreases |s|
  {
    if s != "" && Space(s[0]) { StripLeftEnds(s[1..]); }
  }

  /** A stored domain is a fixed point of its normaliser exactly when no newline stood before trailing dots. */
  lemma DomainFixedPointIff(value: string)
    requires NormalizeDomain(value).Ok?
    ensures NormalizeDomain(NormalizeDomain(value).value) == NormalizeDomain(value) <==> !NewlineBeforeDots(value)
  {
    var v := NormalizeDomain(value).value;
    LoweredName(value);
    LowerIsLower(TrimDots(Strip(value)));
    NameAgain(v, FullDomain);
  }

  lemma HostnameFixedPointIff(value: string)
    requires NormalizeHostname(value).Ok?
    ensures NormalizeHostname(NormalizeHostname(value).value) == NormalizeHostname(value) <==> !NewlineBeforeDots(value)
  {
    var v := NormalizeHostname(value).value;
    LoweredName(value);
    LowerIsLower(TrimDots(Strip(value)));
    NameAgain(v, FullHost);
  }

  /** In particular an input without any newline is stored as a fixed point. */
  lemma NewlineFree(value: string)
    requires '\n' !in value
    ensures !NewlineBeforeDots(value)
  {
    TrimDotsIs(Strip(value));
    StripParts(value);
    var t := TrimDots(Strip(value));
    if t != "" {
      assert t[|t| - 1] == Strip(value)[|t| - 1];
      assert Strip(value)[|t| - 1] in Strip(value);
    }
  }

  lemma StripParts(s: string)
    ensures forall c :: c in Strip(s) ==> c in s
  {
    StripLeftParts(s);
    StripRightParts(StripLeft(s));
  }

  lemma {:induction false} StripLeftParts(s: string)
    ensures forall c :: c in StripLeft(s) ==> c in s
    decreases |s|
  {
    if s != "" && Space(s[0]) { StripLeftParts(s[1..]); }
  }

  lemma {:induction false} StripRightParts(s: string)
    ensures forall c :: c in StripRight(s) ==> c in s
    decreases |s|
  {
    if s != "" && Space(s[|s| - 1]) { StripRightParts(s[..|s| - 1]); }
  }

  /** The input `"a.bc" newline "."` is accepted, and its stored form is not a fixed point. */
  lemma NewlineIsStored()
    ensures NormalizeDomain("a.bc\n.") == Ok("a.bc\n") && NewlineBeforeDots("a.bc\n.")
  {
    hide Split, Join;
    var s := "a.bc\n.";
    assert Strip(s) == s;
    assert s[..|s| - 1] == "a.bc\n";
    assert TrimDots(s) == "a.bc\n";
    assert Lower(s) == s;
    assert "a.bc\n"[..4] == "a.bc";
    ShortDomain();
  }

  lemma ShortDomain()
    ensures FullDomain("a.bc")
  {
    hide Split, Join;
    var parts := ["a", "bc"];
    ShortJoin();
    JoinSplits('.', parts);
    assert DomainParts(parts);
  }

  lemma ShortJoin()
    ensures Join('.', ["a", "bc"]) == "a.bc"
  {
    assert ["a", "bc"][..1] == ["a"];
    assert "a" + ['.'] + "bc" == "a.bc";
  }

  lemma EmailFixedPoint(value: string)
    requires NormalizeEmail(value).Ok?
    ensures NormalizeEmail(NormalizeEmail(value).value) == NormalizeEmail(value)
  {
    LowerStripAgain(value);
  }

  lemma HashFixedPoint(value: string, n: nat)
    requires NormalizeHash(value, n).Ok?
    ensures NormalizeHash(NormalizeHash(value, n).value, n) == NormalizeHash(value, n)
  {
    LowerStripAgain(value);
  }

  lemma LowerStripAgain(value: string)
    ensures var v := Lower(Strip(value));
      Lower(Strip(v)) == v && !EndsInNewline(v)
  {
    StripStrips(value);
    LowerKeepsStripped(Strip(value));
    StrippedIsFixed(Lower(Strip(value)));
    LowerIsLower(Strip(value));
  }

  /** At its own length, a value is accepted as a hash exactly when it consists of hex digits; space around it would have
      to count towards the length. */
  lemma HashTakenAsItIs(value: string, n: nat)
    requires n == |value|
    ensures value != "" ==> (NormalizeHash(value, n).Ok? <==> All(value, Hex))
    ensures value != "" && All(value, Hex) ==> NormalizeHash(value, n) == Ok(Lower(value))
  {
    if value != "" {
      var v := Strip(value);
      StripLeftShort(value);
      StripRightShort(StripLeft(value));
      StripStrips(value);
      LowerKeepsStripped(v);
      if All(value, Hex) {
        assert Hex(value[0]) && Hex(value[|value| - 1]);
        StrippedIsFixed(value);
        LowerKeepsHex(value);
      } else if NormalizeHash(value, n).Ok? {
        StripWhole(value);
        LowerKeepsHex(value);
        assert false;
      }
    }
  }

  lemma LowerKeepsHex(s: string)
    ensures All(Lower(s), Hex) <==> All(s, Hex)
  {
    assert forall i :: 0 <= i < |s| ==> (Hex(Lower(s)[i]) <==> Hex(s[i]));
  }

  lemma StripWhole(s: string)
    requires |Strip(s)| == |s|
    ensures Strip(s) == s
  {
    StripLeftShort(s);
    if s != "" && Space(s[0]) {
      StripLeftShort(s[1..]);
      StripRightShort(StripLeft(s));
    } else if s != "" && Space(s[|s| - 1]) {
      StripRightShort(s[..|s| - 1]);
    }
  }

  /** An accepted hash is lowercase hex of the length that its type names. */
  lemma HashIsLowerHex(value: string, n: nat)
    requires NormalizeHash(value, n).Ok?
    ensures var v := NormalizeHash(value, n).value;
      |v| == n && forall i :: 0 <= i < |v| ==> LowerHex(v[i])
  {
    var w := Strip(value);
    var v := Lower(w);
    LowerStripAgain(value);
    assert FullHex(v, n);
    forall i | 0 <= i < |v| ensures LowerHex(v[i]) {
      assert Hex(v[i]) && v[i] == LowerChar(w[i]);
    }
  }
}
