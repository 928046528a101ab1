/** The verb vocabulary of constrained impersonation (KEP-5284): printing and parsing
    (api/authorization/v1alpha1/constrained_impersonation_types.go). */
module ImpersonationVerbs {
  import opened Options
  import opened Strings

  const PREFIX := "impersonate:"
  const ON_PREFIX := "impersonate-on:"

  const ASSOCIATED_NODE := "associated-node"
  const ARBITRARY_NODE := "arbitrary-node"
  const SERVICE_ACCOUNT := "serviceaccount"
  const USER_INFO := "user-info"

  predicate KnownMode(mode: string) {
    mode in [ASSOCIATED_NODE, ARBITRARY_NODE, SERVICE_ACCOUNT, USER_INFO]
  }

  function IdentityVerb(mode: string): string {
    PREFIX + mode
  }

  function ActionVerb(mode: string, verb: string): string {
    ON_PREFIX + mode + ":" + verb
  }

  predicate IsImpersonationVerb(verb: string) {
    HasPrefix(verb, PREFIX) || HasPrefix(verb, ON_PREFIX)
  }

  datatype ParsedVerb = Identity(mode: string) | Action(mode: string, verb: string)

  /** strings.Cut at the first separator. */
  function Cut(s: string, sep: char): Option<(string, string)> {
    var i := Index(s, [sep]);
    if i < 0 then None else Some((s[..i], s[i + 1..]))
  }

  function ParseVerb(verb: string): Option<ParsedVerb> {
    if HasPrefix(verb, ON_PREFIX) then
      match Cut(verb[|ON_PREFIX|..], ':')
      case None => None
      case Some((mode, underlying)) =>
        if underlying == "" || !KnownMode(mode) then None else Some(Action(mode, underlying))
    else if HasPrefix(verb, PREFIX) then
      var mode := verb[|PREFIX|..];
      if !KnownMode(mode) then None else Some(Identity(mode))
    else None
  }

  function PrintVerb(p: ParsedVerb): string {
    match p
    case Identity(mode) => IdentityVerb(mode)
    case Action(mode, verb) => ActionVerb(mode, verb)
  }

  /** What the typed spec can express: a known mode and, for actions, some underlying verb. */
  predicate Printable(p: ParsedVerb) {
    KnownMode(p.mode) && (p.Action? ==> p.verb != "")
  }

  lemma CutIsFirst(head: string, tail: string, sep: char)
    requires sep !in head
    ensures Cut(head + [sep] + tail, sep) == Some((head, tail))
  {
    var s := head + [sep] + tail;
    assert OccursAt(s, [sep], |head|) by { assert s[|head|..|head| + 1] == [sep]; }
    var i := Index(s, [sep]);
    assert s[i..i + 1] == [sep];
    assert s[i] == sep;
    assert forall j :: 0 <= j < |head| ==> s[j] == head[j];
    assert i == |head|;
    assert s[..i] == head && s[i + 1..] == tail;
  }

  lemma CutSound(s: string, sep: char)
    requires Cut(s, sep).Some?
    ensures s == Cut(s, sep).value.0 + [sep] + Cut(s, sep).value.1
  {
  }

  lemma PrefixDrops(p: string, x: string)
    ensures HasPrefix(p + x, p) && (p + x)[|p|..] == x
  {
  }

  lemma PrefixSplits(s: string, p: string)
    requires HasPrefix(s, p)
    ensures s == p + s[|p|..]
  {
  }

  lemma ModesHaveNoColon(mode: string)
    requires KnownMode(mode)
    ensures ':' !in mode
  {
  }

  lemma IdentityIsNoAction(mode: string)
    ensures !HasPrefix(IdentityVerb(mode), ON_PREFIX)
  {
    assert IdentityVerb(mode)[11] != ON_PREFIX[11];
  }

  /** What is printed parses to what was printed, also when the underlying verb itself contains colons. */
  lemma PrintThenParse(p: ParsedVerb)
    requires Printable(p)
    ensures ParseVerb(PrintVerb(p)) == Some(p)
  {
    ModesHaveNoColon(p.mode);
    match p
    case Identity(mode) =>
      IdentityIsNoAction(mode);
      PrefixDrops(PREFIX, mode);
    case Action(mode, underlying) =>
      var rest := mode + [':'] + underlying;
      assert ActionVerb(mode, underlying) == ON_PREFIX + rest;
      PrefixDrops(ON_PREFIX, rest);
      CutIsFirst(mode, underlying, ':');
  }

  lemma ParseThenPrint(verb: string)
    requires ParseVerb(verb).Some?
    ensures Printable(ParseVerb(verb).value) && PrintVerb(ParseVerb(verb).value) == verb
  {
    if HasPrefix(verb, ON_PREFIX) {
      var rest := verb[|ON_PREFIX|..];
      PrefixSplits(verb, ON_PREFIX);
      CutSound(rest, ':');
      var p := ParseVerb(verb).value;
      assert ON_PREFIX + (p.mode + [':'] + p.verb) == ActionVerb(p.mode, p.verb);
    } else {
      PrefixSplits(verb, PREFIX);
    }
  }

  /** Parsing and printing undo each other: a verb parses to p exactly when p is printable and prints
      to that verb. */
  lemma VerbRoundTrip(verb: string, p: ParsedVerb)
    ensures ParseVerb(verb) == Some(p) <==> Printable(p) && PrintVerb(p) == verb
  {
    if Printable(p) { PrintThenParse(p); }
    if ParseVerb(verb) == Some(p) { ParseThenPrint(verb); }
  }

  /** The generated verbs are told apart from each other and from the RBAC wildcard. */
  lemma VerbsDistinct(mode: string, verb: string, mode': string, verb': string)
    requires KnownMode(mode) && KnownMode(mode') && verb != "" && verb' != ""
    ensures IdentityVerb(mode) != "*" && ActionVerb(mode, verb) != "*" && ActionVerb(mode, verb) != ""
    ensures IdentityVerb(mode) != ActionVerb(mode', verb')
    ensures ActionVerb(mode, verb) == ActionVerb(mode', verb') ==> mode == mode' && verb == verb'
  {
    PrintThenParse(Identity(mode));
    PrintThenParse(Action(mode, verb));
    PrintThenParse(Action(mode', verb'));
    assert |IdentityVerb(mode)| > 1 && |ActionVerb(mode, verb)| > 1;
  }
}
