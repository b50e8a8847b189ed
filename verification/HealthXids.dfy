/** Which XID errors the health check ignores (pkg/rm/health.go): two token lists and a hardcoded
    list, merged in order of precedence. */
module HealthXids {
  import opened Text

  const ALL_XIDS: nat := 0
  const HARDCODED: seq<nat> := [13, 31, 43, 45, 68, 109]

  type DisabledXids = map<nat, bool>

  // ---------- queries ----------

  predicate IsAllDisabled(h: DisabledXids) { ALL_XIDS in h && h[ALL_XIDS] }

  predicate IsDisabled(h: DisabledXids, xid: nat) {
    if ALL_XIDS in h && !h[ALL_XIDS] then false
    else if xid in h then h[xid]
    else IsAllDisabled(h)
  }

  // ---------- tokens ----------

  function ToLowerChar(c: char): char { if 'A' <= c <= 'Z' then c - 'A' + 'a' else c }

  /** strings.ToLower, for ASCII. */
  function ToLower(s: string): string { seq(|s|, k requires 0 <= k < |s| => ToLowerChar(s[k])) }

  datatype Token = Everything | Ignored | Xid(n: nat)

  function ReadToken(token: string): Token {
    var trimmed := TrimSpace(token);
    if trimmed == "all" || trimmed == "xids" then Everything
    else match ParseUint(trimmed, MAX_UINT64)
      case Value(n) => Xid(n)
      case _ => Ignored
  }

  /** What a token says, whatever white space is around it: "all" and "xids" name every XID, a decimal number
      of 64 bits names that one, and anything else is ignored. */
  lemma TokenText(before: string, core: string, after: string, digits: string, tail: string)
    requires AllCut(before, IsSpace) && AllCut(after, IsSpace)
    requires core == "" || (!IsSpace(core[0]) && !IsSpace(core[|core| - 1]))
    requires core == digits + tail && AllDigits(digits) && (tail == "" || !IsDigit(tail[0]))
    ensures ReadToken(before + core + after) ==
      if core == "all" || core == "xids" then Everything
      else if digits != "" && tail == "" && Horner(digits, 0) <= 0xFFFF_FFFF_FFFF_FFFF then Xid(Horner(digits, 0))
      else Ignored
  {
    TrimPadded(before, core, after, IsSpace);
    ScanMixed(digits, tail, 0, MAX_UINT64);
    hide Horner, Trim;
  }

  /** ASCII white space. */
  lemma SpaceText(c: char)
    ensures IsSpace(c) <==> c as int == 32 || 9 <= c as int <= 13
  {}

  /** Lower case, letter by letter. */
  lemma LowerText(s: string, i: nat)
    requires i < |s|
    ensures |ToLower(s)| == |s|
    ensures ToLower(s)[i] as int == if 65 <= s[i] as int <= 90 then s[i] as int + 32 else s[i] as int
  {}

  /** The list names every XID, with a keyword or with the number 0. */
  ghost predicate NamesAll(tokens: seq<string>) {
    exists k :: 0 <= k < |tokens| && (ReadToken(tokens[k]) == Everything || ReadToken(tokens[k]) == Xid(ALL_XIDS))
  }

  ghost predicate HasKeyword(tokens: seq<string>) {
    exists k :: 0 <= k < |tokens| && ReadToken(tokens[k]) == Everything
  }

  ghost predicate Names(tokens: seq<string>, xid: nat) {
    exists k :: 0 <= k < |tokens| && ReadToken(tokens[k]) == Xid(xid)
  }

  /** The keys a token list gives: only 0 as soon as a keyword occurs, else the numbers it names. */
  ghost predicate KeysOf(m: DisabledXids, tokens: seq<string>) {
    && (forall x: nat :: x in m <==> if HasKeyword(tokens) then x == ALL_XIDS else Names(tokens, x))
    && forall x: nat :: x in m ==> m[x]
  }

  method NewHealthCheckXids(tokens: seq<string>) returns (output: DisabledXids)
    ensures KeysOf(output, tokens)
  {
    hide ReadToken;
    output := map[];
    for k := 0 to |tokens|
      invariant !HasKeyword(tokens[..k]) && KeysOf(output, tokens[..k])
    {
      var token := ReadToken(tokens[k]);
      assert tokens[..k + 1] == tokens[..k] + [tokens[k]];
      NamesSnoc(tokens[..k], tokens[k]);
      if token == Everything {
        assert HasKeyword(tokens);
        return map[ALL_XIDS := true];
      }
      if token.Xid? { output := output[token.n := true]; }
    }
    assert tokens[..|tokens|] == tokens;
  }

  lemma NamesSnoc(tokens: seq<string>, last: string)
    ensures HasKeyword(tokens + [last]) <==> HasKeyword(tokens) || ReadToken(last) == Everything
    ensures forall x :: Names(tokens + [last], x) <==> Names(tokens, x) || ReadToken(last) == Xid(x)
  {
    hide ReadToken;
    var more := tokens + [last];
    assert more[|tokens|] == last;
    assert forall k :: 0 <= k < |tokens| ==> more[k] == tokens[k];
  }

  // ---------- merging ----------

  /** Merge the disabled, the hardcoded and the enabled XIDs, later ones overriding. */
  ghost predicate Merged(m: DisabledXids, disable: seq<string>, enable: seq<string>) {
    forall x: nat ::
      var enabled := if HasKeyword(enable) then x == ALL_XIDS else Names(enable, x);
      var disabled := x in HARDCODED || if HasKeyword(disable) then x == ALL_XIDS else Names(disable, x);
      && (x in m <==> enabled || disabled)
      && (x in m ==> m[x] == !enabled)
  }

  /** The lists are read from two environment variables. */
  method GetDisabledHealthCheckXids(disableEnv: string, enableEnv: string) returns (disabled: DisabledXids)
    ensures var disable, enable := Split(ToLower(disableEnv), ','), Split(ToLower(enableEnv), ',');
      && Merged(disabled, disable, enable)
      && (forall x: nat :: IsDisabled(disabled, x) <==> Ignores(disable, enable, x))
      && forall x: nat :: IsDisabled(disabled, x) <==> IgnoredByTokens(disable, enable, x)
  {
    hide ToLower, Split, Names, HasKeyword;
    var disable, enable := Split(ToLower(disableEnv), ','), Split(ToLower(enableEnv), ',');
    disabled := NewHealthCheckXids(disable);
    var enabled := NewHealthCheckXids(enable);
    ghost var listed := disabled;
    for k := 0 to |HARDCODED|
      invariant forall x: nat :: x in disabled <==> x in listed || x in HARDCODED[..k]
      invariant forall x: nat :: x in disabled ==> disabled[x]
    {
      assert HARDCODED[..k + 1] == HARDCODED[..k] + [HARDCODED[k]];
      disabled := disabled[HARDCODED[k] := true];
    }
    assert HARDCODED[..|HARDCODED|] == HARDCODED;
    ghost var base := disabled;
    var todo := enabled.Keys;
    while todo != {}
      invariant todo <= enabled.Keys
      invariant forall x: nat :: x in disabled <==> x in base || (x in enabled && x !in todo)
      invariant forall x: nat :: x in disabled ==> disabled[x] == !(x in enabled && x !in todo)
      decreases todo
    {
      var x :| x in todo;
      todo := todo - {x};
      disabled := disabled[x := false];
    }
    assert Merged(disabled, disable, enable);
    forall x: nat ensures IsDisabled(disabled, x) <==> Ignores(disable, enable, x) {
      Precedence(disabled, disable, enable, x);
    }
    hide Ignores, IsDisabled, Merged, IgnoredByTokens;
    forall x: nat ensures Ignores(disable, enable, x) <==> IgnoredByTokens(disable, enable, x) {
      IgnoresMeaning(disable, enable, x);
    }
  }

  ghost predicate Somewhere(tokens: seq<string>, what: Token) { exists t :: t in tokens && ReadToken(t) == what }

  /** The precedence rule over the tokens themselves. */
  ghost predicate IgnoredByTokens(disable: seq<string>, enable: seq<string>, x: nat) {
    && !Somewhere(enable, Everything) && !Somewhere(enable, Xid(0)) && !Somewhere(enable, Xid(x))
    && (x in {13, 31, 43, 45, 68, 109}
        || Somewhere(disable, Everything) || Somewhere(disable, Xid(0)) || Somewhere(disable, Xid(x)))
  }

  /** An XID is ignored unless some enabling token says everything, 0 or that XID, and then if some disabling
      token does or it is one of the six hardcoded ones. */
  lemma IgnoresMeaning(disable: seq<string>, enable: seq<string>, x: nat)
    ensures Ignores(disable, enable, x) <==> IgnoredByTokens(disable, enable, x)
    ensures Ignores(disable, enable, x) <==>
              && (forall t :: t in enable ==>
                    ReadToken(t) != Everything && ReadToken(t) != Xid(0) && ReadToken(t) != Xid(x))
              && (x in {13, 31, 43, 45, 68, 109}
                  || exists t :: t in disable
                       && (ReadToken(t) == Everything || ReadToken(t) == Xid(0) || ReadToken(t) == Xid(x)))
  {
    hide ReadToken;
    forall tokens: seq<string>
      ensures NamesAll(tokens) <==> Somewhere(tokens, Everything) || Somewhere(tokens, Xid(0))
      ensures Names(tokens, x) <==> Somewhere(tokens, Xid(x))
    {
      assert forall k :: 0 <= k < |tokens| ==> tokens[k] in tokens;
    }
  }

  /** The documented precedence: enabling wins; otherwise an XID is ignored if the disable list names
      it or everything, or it is hardcoded. */
  ghost predicate Ignores(disable: seq<string>, enable: seq<string>, xid: nat) {
    && !NamesAll(enable) && !Names(enable, xid)
    && (NamesAll(disable) || Names(disable, xid) || xid in HARDCODED)
  }

  /** For all token lists, a merged map disables exactly the XIDs the precedence rule ignores: the
      early return on a keyword loses nothing that matters. */
  lemma Precedence(m: DisabledXids, disable: seq<string>, enable: seq<string>, xid: nat)
    requires Merged(m, disable, enable)
    ensures IsDisabled(m, xid) <==> Ignores(disable, enable, xid)
    ensures IsAllDisabled(m) <==> NamesAll(disable) && !NamesAll(enable)
  {}
}
