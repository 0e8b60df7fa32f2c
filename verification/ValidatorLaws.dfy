/**
 What the normalisers accept and what they store, said about the parts of the input: spaces around it go, trailing dots of
 a name go, letters become small, and what is left must have the form that its type asks for.
 */
module ValidatorLaws {
  import opened Wrappers
  import opened Splitting
  import opened Validators

  // ---------- Spaces ----------

  lemma {:induction false} StripLeftSplits(s: string) returns (pre: string)
    ensures s == pre + StripLeft(s) && All(pre, Space)
    decreases |s|
  {
    if s != "" && Space(s[0]) {
      var rest := StripLeftSplits(s[1..]);
      pre := [s[0]] + rest;
    } else {
      pre := "";
    }
  }

  lemma {:induction false} StripRightSplits(s: string) returns (post: string)
    ensures s == StripRight(s) + post && All(post, Space)
    decreases |s|
  {
    if s != "" && Space(s[|s| - 1]) {
      var rest := StripRightSplits(s[..|s| - 1]);
      post := rest + [s[|s| - 1]];
    } else {
      post := "";
    }
  }

  /** What is stripped stands between spaces. */
  lemma StripSplits(s: string) returns (pre: string, post: string)
    ensures s == pre + Strip(s) + post && All(pre, Space) && All(post, Space)
  {
    pre := StripLeftSplits(s);
    post := StripRightSplits(StripLeft(s));
  }

  lemma {:induction false} StripLeftDrops(pre: string, s: string)
    requires All(pre, Space) && (s == "" || !Space(s[0]))
    ensures StripLeft(pre + s) == s
    decreases |pre|
  {
    hide Space;
    if pre == "" {
      assert pre + s == s;
    } else {
      assert (pre + s)[1..] == pre[1..] + s && (pre + s)[0] == pre[0];
      StripLeftDrops(pre[1..], s);
    }
  }

  lemma {:induction false} StripRightDrops(s: string, post: string)
    requires All(post, Space) && (s == "" || !Space(s[|s| - 1]))
    ensures StripRight(s + post) == s
    decreases |post|
  {
    hide Space;
    if post == "" {
      assert s + post == s;
    } else {
      var n := |post| - 1;
      assert (s + post)[..|s + post| - 1] == s + post[..n] && (s + post)[|s + post| - 1] == post[n];
      StripRightDrops(s, post[..n]);
    }
  }

  /** What stands between spaces, and is not empty, is what is stripped. */
  lemma StripDrops(pre: string, s: string, post: string)
    requires All(pre, Space) && All(post, Space) && s != "" && Stripped(s)
    ensures Strip(pre + s + post) == s
  {
    hide Space;
    assert pre + s + post == pre + (s + post);
    StripLeftDrops(pre, s + post);
    StripRightDrops(s, post);
  }

  // ---------- Small letters ----------

  predicate HasCapital(v: string) {
    exists i :: 0 <= i < |v| && 'A' <= v[i] <= 'Z'
  }

  lemma LowerHasNoCapital(s: string)
    ensures !HasCapital(Lower(s))
  {}

  lemma LowerLength(s: string)
    ensures |Lower(s)| == |s|
    ensures s != "" ==> Lower(s)[0] == LowerChar(s[0]) && Lower(s)[|s| - 1] == LowerChar(s[|s| - 1])
  {}

  lemma LowerIsStripped(s: string)
    ensures Stripped(Lower(s)) <==> Stripped(s)
  {
    LowerLength(s);
    if s != "" {
      LowerKeepsSpace(s[0]);
      LowerKeepsSpace(s[|s| - 1]);
    }
  }

  // ---------- E-mail addresses and hashes ----------

  /** The value stands in the input, perhaps in capitals, with nothing but spaces around it. */
  ghost predicate StandsIn(value: string, v: string) {
    exists pre: string, core: string, post: string :: Frames(value, pre, core, post) && v == Lower(core)
  }

  predicate Frames(value: string, pre: string, core: string, post: string) {
    value == pre + core + post && All(pre, Space) && All(post, Space)
  }

  /** A normaliser that strips and lowers, and asks for a form without spaces at its ends. */
  lemma StripLowerIff(value: string, v: string, full: string -> bool)
    requires forall u :: full(u) ==> u != "" && Stripped(u)
    ensures v == Lower(Strip(value)) && EndsHere(v, full) <==> StandsIn(value, v) && full(v)
  {
    hide Space, Lower;
    if v == Lower(Strip(value)) && EndsHere(v, full) {
      var pre, post := StripSplits(value);
      assert Frames(value, pre, Strip(value), post);
      StripStrips(value);
      LowerIsStripped(Strip(value));
      NewlineIsSpaceAtEnd(v);
    }
    if StandsIn(value, v) && full(v) {
      var pre, core, post :| Frames(value, pre, core, post) && v == Lower(core);
      LowerIsStripped(core);
      LowerLength(core);
      StripDrops(pre, core, post);
    }
  }

  lemma NewlineIsSpaceAtEnd(v: string)
    ensures Stripped(v) ==> !EndsInNewline(v)
  {}

  predicate LocalChar(c: char) {
    'a' <= c <= 'z' || 'A' <= c <= 'Z' || '0' <= c <= '9' || c == '.' || c == '_' || c == '%' || c == '+' || c == '-'
  }

  lemma {:induction false} AtIs(local: string, rest: string)
    requires '@' !in local
    ensures At(local + "@" + rest) == |local|
    decreases |local|
  {
    var v := local + "@" + rest;
    if local == "" {
      assert v[0] == '@';
    } else {
      assert v[0] == local[0] && local[0] in local;
      assert v[1..] == local[1..] + "@" + rest;
      AtIs(local[1..], rest);
    }
  }

  lemma {:induction false} AtSplits(v: string)
    ensures At(v) <= |v| && (At(v) < |v| ==> v[At(v)] == '@')
    decreases |v|
  {
    if v != "" && v[0] != '@' { AtSplits(v[1..]); }
  }

  /** An address is a local part, an at sign and a domain. */
  lemma EmailIffDecomposes(v: string)
    ensures FullEmail(v) <==>
      exists local: string, domain: string ::
        v == local + "@" + domain && local != "" && All(local, LocalChar) && FullDomain(domain)
  {
    hide FullDomain;
    if FullEmail(v) {
      AtSplits(v);
      var local, domain := v[..At(v)], v[At(v) + 1..];
      assert v == local + "@" + domain;
      assert All(local, LocalChar);
    }
    forall local: string, domain: string
      | v == local + "@" + domain && local != "" && All(local, LocalChar) && FullDomain(domain)
      ensures FullEmail(v)
    {
      assert '@' !in local;
      AtIs(local, domain);
      assert v[..|local|] == local && v[|local| + 1..] == domain;
    }
  }

  lemma EmailEnds(v: string)
    requires FullEmail(v)
    ensures v != "" && Stripped(v)
  {
    AtSplits(v);
    var domain := v[At(v) + 1..];
    NamesArePlain(domain);
    PlainIsStripped(domain);
    assert v[|v| - 1] == domain[|domain| - 1];
    assert v[0] == v[..At(v)][0];
  }

  /** An input is stored as the address `v` exactly if `v` is an address that stands in it, perhaps in capitals, with nothing
      but spaces around it; and then `v` has no capitals. */
  lemma EmailStoredIff(value: string, v: string)
    ensures NormalizeEmail(value) == Ok(v) <==> StandsIn(value, v) && FullEmail(v)
    ensures NormalizeEmail(value) == Ok(v) ==> !HasCapital(v)
  {
    hide FullEmail, Space, Lower;
    forall u | FullEmail(u) ensures u != "" && Stripped(u) { EmailEnds(u); }
    StripLowerIff(value, v, FullEmail);
    LowerHasNoCapital(Strip(value));
  }

  /** The same of a hash of `n` digits. */
  lemma HashStoredIff(value: string, v: string, n: nat)
    requires n > 0
    ensures NormalizeHash(value, n) == Ok(v) <==> StandsIn(value, v) && |v| == n && All(v, Hex)
    ensures NormalizeHash(value, n) == Ok(v) ==> !HasCapital(v)
  {
    hide Space, Lower;
    var full := (u: string) => FullHex(u, n);
    forall u | full(u) ensures u != "" && Stripped(u) { HexEnds(u); }
    StripLowerIff(value, v, full);
    LowerHasNoCapital(Strip(value));
    assert EndsHere(Lower(Strip(value)), full) <==> EndsHere(Lower(Strip(value)), s => FullHex(s, n));
  }

  lemma HexEnds(u: string)
    requires u != "" && All(u, Hex)
    ensures Stripped(u)
  {
    assert Hex(u[0]) && Hex(u[|u| - 1]);
  }

  // ---------- Names ----------

  /** The name stands in the input, perhaps in capitals, before any number of dots, with nothing but spaces around both. */
  ghost predicate NamedIn(value: string, v: string) {
    exists pre: string, core: string, dots: string, post: string :: Names(value, pre, core, dots, post, v)
  }

  /** A newline at the end of a name only stays if dots follow it. */
  predicate Names(value: string, pre: string, core: string, dots: string, post: string, v: string) {
    && Frames(value, pre, core + dots, post) && All(dots, c => c == '.') && v == Lower(core)
    && (EndsInNewline(v) ==> dots != "")
  }

  lemma {:induction false} TrimDotsSplits(s: string) returns (dots: string)
    ensures s == TrimDots(s) + dots && All(dots, c => c == '.')
    decreases |s|
  {
    if s != "" && s[|s| - 1] == '.' {
      var rest := TrimDotsSplits(s[..|s| - 1]);
      dots := rest + ['.'];
    } else {
      dots := "";
    }
  }

  lemma {:induction false} TrimDotsDrops(s: string, dots: string)
    requires All(dots, c => c == '.') && (s == "" || s[|s| - 1] != '.')
    ensures TrimDots(s + dots) == s
    decreases |dots|
  {
    if dots == "" {
      assert s + dots == s;
    } else {
      var n := |dots| - 1;
      assert (s + dots)[..|s + dots| - 1] == s + dots[..n] && (s + dots)[|s + dots| - 1] == dots[n];
      TrimDotsDrops(s, dots[..n]);
    }
  }

  lemma LowerParts(a: string, b: string)
    ensures Lower(a + b) == Lower(a) + Lower(b)
  {}

  lemma LowerFront(s: string, n: nat)
    requires n <= |s|
    ensures Lower(s[..n]) == Lower(s)[..n] && Lower(s[n..]) == Lower(s)[n..]
  {}

  lemma LowerDots(dots: string)
    ensures All(dots, c => c == '.') <==> All(Lower(dots), c => c == '.')
    ensures All(dots, c => c == '.') ==> Lower(dots) == dots
  {
    forall i | 0 <= i < |dots| ensures Lower(dots)[i] == '.' <==> dots[i] == '.' { LowerKeepsSpace(dots[i]); }
  }

  /** The pattern of a name holds of the string, or of all of it but a final newline. Its ends are not dots, nor spaces but for
      that newline. */
  lemma NameEnds(v: string, full: string -> bool)
    requires full == FullDomain || full == FullHost
    requires EndsHere(v, full)
    ensures v != "" && !Space(v[0]) && v[|v| - 1] != '.' && (!EndsInNewline(v) ==> !Space(v[|v| - 1]))
  {
    var name := if full(v) then v else v[..|v| - 1];
    NamesArePlain(name);
    PlainIsStripped(name);
    assert v[0] == name[0];
  }

  lemma NameStoredIff(value: string, v: string, full: string -> bool)
    requires full == FullDomain || full == FullHost
    ensures v == TrimDots(Lower(Strip(value))) && EndsHere(v, full) <==> NamedIn(value, v) && EndsHere(v, full)
  {
    hide FullDomain, FullHost, Space, Lower;
    if EndsHere(v, full) {
      NameEnds(v, full);
      if v == TrimDots(Lower(Strip(value))) { NameIsThere(value, v); }
      if NamedIn(value, v) {
        var pre, core, dots, post :| Names(value, pre, core, dots, post, v);
        NameIsStored(value, v, pre, core, dots, post);
      }
    }
  }

  lemma NameIsThere(value: string, v: string)
    requires v == TrimDots(Lower(Strip(value)))
    ensures NamedIn(value, v)
  {
    hide Space, Lower;
    var stripped := Strip(value);
    var pre, post := StripSplits(value);
    var lowered := TrimDotsSplits(Lower(stripped));
    LowerLength(stripped);
    LowerFront(stripped, |v|);
    var core, dots := stripped[..|v|], stripped[|v|..];
    assert Lower(stripped)[..|v|] == v && Lower(stripped)[|v|..] == lowered;
    LowerDots(dots);
    assert core + dots == stripped;
    if dots == "" {
      StripStrips(value);
      LowerIsStripped(stripped);
      assert v == Lower(stripped);
      NewlineIsSpaceAtEnd(v);
    }
    assert Names(value, pre, core, dots, post, v);
  }

  lemma NameIsStored(value: string, v: string, pre: string, core: string, dots: string, post: string)
    requires Names(value, pre, core, dots, post, v)
    requires v != "" && !Space(v[0]) && v[|v| - 1] != '.' && (!EndsInNewline(v) ==> !Space(v[|v| - 1]))
    ensures v == TrimDots(Lower(Strip(value)))
  {
    hide Space, Lower;
    LowerLength(core);
    LowerKeepsSpace(core[0]);
    LowerKeepsSpace(core[|core| - 1]);
    var s := core + dots;
    DotIsNoSpace();
    assert s[0] == core[0] && s[|s| - 1] == if dots == "" then core[|core| - 1] else dots[|dots| - 1];
    StripDrops(pre, s, post);
    LowerParts(core, dots);
    LowerDots(dots);
    TrimDotsDrops(v, dots);
  }

  lemma DotIsNoSpace()
    ensures !Space('.')
  {}

  /** An input is stored as the domain `v` exactly if it holds `v`, perhaps in capitals and with dots behind it, between
      spaces, and `v` is a domain, or one with a newline behind it; and then `v` has no capitals. */
  lemma DomainStoredIff(value: string, v: string)
    ensures NormalizeDomain(value) == Ok(v) <==>
      NamedIn(value, v) && (FullDomain(v) || (EndsInNewline(v) && FullDomain(v[..|v| - 1])))
    ensures NormalizeDomain(value) == Ok(v) ==> !HasCapital(v)
  {
    hide FullDomain, Space, Lower, NamedIn;
    NameStoredIff(value, v, FullDomain);
    StoredIsLower(value);
  }

  /** The same of a host name. */
  lemma HostnameStoredIff(value: string, v: string)
    ensures NormalizeHostname(value) == Ok(v) <==>
      NamedIn(value, v) && (FullHost(v) || (EndsInNewline(v) && FullHost(v[..|v| - 1])))
    ensures NormalizeHostname(value) == Ok(v) ==> !HasCapital(v)
  {
    hide FullHost, Space, Lower, NamedIn;
    NameStoredIff(value, v, FullHost);
    StoredIsLower(value);
    if EndsHere(v, FullHost) { NameEnds(v, FullHost); }
  }

  lemma StoredIsLower(value: string)
    ensures !HasCapital(TrimDots(Lower(Strip(value))))
  {
    var v := Lower(Strip(value));
    LowerHasNoCapital(Strip(value));
    TrimDotsIs(v);
    assert forall i :: 0 <= i < |TrimDots(v)| ==> TrimDots(v)[i] == v[i];
  }
}
