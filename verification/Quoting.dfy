/** T-SQL quoting, and a reader of quoted tokens that undoes it. */
module Quoting {

  import opened Selection

  // ----- The printer -----

  /** strings.ReplaceAll(s, c, cc) for a single character. */
  function Double(s: string, c: char): string {
    if s == "" then "" else (if s[0] == c then [c, c] else [s[0]]) + Double(s[1..], c)
  }

  function QuoteName(name: string): string {
    "[" + Double(name, ']') + "]"
  }

  function QuoteString(value: string): string {
    "N'" + Double(value, '\'') + "'"
  }

  /** The upper-case form of each character; no letter becomes a separator, and no separator changes. */
  ghost predicate Casing(upper: char -> char) {
    forall c :: (upper(c) == ':' <==> c == ':') && (upper(c) == '|' <==> c == '|')
  }

  function ToUpper(upper: char -> char, s: string): (u: string)
    ensures |u| == |s| && forall i :: 0 <= i < |s| ==> u[i] == upper(s[i])
  {
    seq(|s|, i requires 0 <= i < |s| => upper(s[i]))
  }

  predicate ColonsAt(s: string, i: nat) {
    i + 1 < |s| && s[i] == ':' && s[i + 1] == ':'
  }

  /** Position of the first "::", or the length of `s`. */
  function FindColons(s: string): (i: nat)
    ensures i <= |s|
    ensures forall j :: 0 <= j < i ==> !ColonsAt(s, j)
    ensures i < |s| ==> ColonsAt(s, i)
  {
    if s == "" || ColonsAt(s, 0) then 0
    else
      var i := FindColons(s[1..]);
      assert forall j :: 0 < j < |s| ==> (ColonsAt(s, j) <==> ColonsAt(s[1..], j - 1));
      i + 1
  }

  /** strings.SplitN(s, "::", 2): the part before the first "::", and the rest after it if there is one. */
  function SplitScope(s: string): (string, Option<string>) {
    var i := FindColons(s);
    if i < |s| then (s[..i], Some(s[i + 2..])) else (s, None)
  }

  /** strings.SplitN(s, ".", 2). */
  function SplitDot(s: string): (string, Option<string>) {
    var i := FirstIn(s, {'.'});
    if i < |s| then (s[..i], Some(s[i + 1..])) else (s, None)
  }

  /** The printed form of a securable name. */
  function PrintName(name: string): string {
    var (owner, item) := SplitDot(name);
    match item
    case None => QuoteName(name)
    case Some(o) => QuoteName(owner) + "." + QuoteName(o)
  }

  function QuotePermissionTarget(upper: char -> char, target: string): string {
    var (first, rest) := SplitScope(target);
    match rest
    case None => ToUpper(upper, first)
    case Some(name) => ToUpper(upper, first) + "::" + PrintName(name)
  }

  // ----- The reader -----

  /** Read up to the closing delimiter `c`, taking a doubled one as itself: the text, and what follows the delimiter. */
  function ReadUntil(s: string, c: char): Option<(string, string)> {
    if s == "" then None
    else if s[0] != c then
      match ReadUntil(s[1..], c)
      case None => None
      case Some(p) => Some(([s[0]] + p.0, p.1))
    else if |s| >= 2 && s[1] == c then
      match ReadUntil(s[2..], c)
      case None => None
      case Some(p) => Some(([c] + p.0, p.1))
    else Some(("", s[1..]))
  }

  function ReadName(s: string): Option<(string, string)> {
    if |s| >= 1 && s[0] == '[' then ReadUntil(s[1..], ']') else None
  }

  function ReadString(s: string): Option<(string, string)> {
    if |s| >= 2 && s[..2] == "N'" then ReadUntil(s[2..], '\'') else None
  }

  // ----- Round trip -----

  predicate StartsWith(s: string, c: char) {
    |s| > 0 && s[0] == c
  }

  lemma {:induction false} ReadDoubled(s: string, c: char, rest: string)
    requires !StartsWith(rest, c)
    ensures ReadUntil(Double(s, c) + [c] + rest, c) == Some((s, rest))
  {
    var text := Double(s, c) + [c] + rest;
    if s == "" {
      assert text == [c] + rest;
    } else {
      var tail := Double(s[1..], c) + [c] + rest;
      ReadDoubled(s[1..], c, rest);
      if s[0] == c {
        assert text == [c, c] + tail;
      } else {
        assert text == [s[0]] + tail;
      }
      assert s == [s[0]] + s[1..];
    }
  }

  /** A quoted identifier is read back whole: the name, and exactly the text that follows, unless that starts with a
      closing bracket. */
  lemma NameRoundTrip(name: string, rest: string)
    requires !StartsWith(rest, ']')
    ensures ReadName(QuoteName(name) + rest) == Some((name, rest))
  {
    ReadDoubled(name, ']', rest);
    assert (QuoteName(name) + rest)[1..] == Double(name, ']') + "]" + rest;
  }

  /** The same for string literals. */
  lemma StringRoundTrip(value: string, rest: string)
    requires !StartsWith(rest, '\'')
    ensures ReadString(QuoteString(value) + rest) == Some((value, rest))
  {
    ReadDoubled(value, '\'', rest);
    assert (QuoteString(value) + rest)[..2] == "N'";
    assert (QuoteString(value) + rest)[2..] == Double(value, '\'') + "'" + rest;
  }

  // ----- Permission targets -----

  /** What a target means: a scope, compared without case, and the parts of a securable name, compared exactly. */
  datatype Target = Keyword(scope: string) | Securable(scope: string, name: string)

  function Meaning(upper: char -> char, target: string): Target {
    var (first, rest) := SplitScope(target);
    match rest
    case None => Keyword(ToUpper(upper, first))
    case Some(name) => Securable(ToUpper(upper, first), name)
  }

  /** Reader of a printed target. */
  function ReadTarget(s: string): Option<Target> {
    var (scope, rest) := SplitScope(s);
    match rest
    case None => Some(Keyword(scope))
    case Some(quoted) =>
      match ReadName(quoted)
      case None => None
      case Some(p) =>
        if p.1 == "" then Some(Securable(scope, p.0))
        else if !StartsWith(p.1, '.') then None
        else
          match ReadName(p.1[1..])
          case None => None
          case Some(q) => if q.1 == "" then Some(Securable(scope, p.0 + "." + q.0)) else None
  }

  /** A printed target splits where the target does: upper case moves no separator. */
  lemma ScopeSplits(upper: char -> char, scope: string, quoted: string)
    requires Casing(upper) && forall j :: 0 <= j < |scope| ==> !ColonsAt(scope + "::", j)
    ensures SplitScope(ToUpper(upper, scope) + "::" + quoted) == (ToUpper(upper, scope), Some(quoted))
  {
    var s, i := ToUpper(upper, scope) + "::" + quoted, |scope|;
    assert s[i] == ':' && s[i + 1] == ':' && s[..i] == ToUpper(upper, scope) && s[i + 2..] == quoted;
    forall j | 0 <= j < i
      ensures !ColonsAt(s, j)
    {
      assert !ColonsAt(scope + "::", j);
    }
    assert ColonsAt(s, i) && FindColons(s) == i;
  }

  lemma KeywordStays(upper: char -> char, word: string)
    requires Casing(upper) && FindColons(word) == |word|
    ensures SplitScope(ToUpper(upper, word)) == (ToUpper(upper, word), None)
  {
    var u := ToUpper(upper, word);
    forall j | 0 <= j < |u|
      ensures !ColonsAt(u, j)
    {
      assert !ColonsAt(word, j);
    }
  }

  lemma NameReadsBack(scope: string, name: string, s: string)
    requires SplitScope(s) == (scope, Some(PrintName(name)))
    ensures ReadTarget(s) == Some(Securable(scope, name))
  {
    var k := FirstIn(name, {'.'});
    if k == |name| {
      NameRoundTrip(name, "");
      assert QuoteName(name) + "" == QuoteName(name);
    } else {
      var owner, item := name[..k], name[k + 1..];
      assert owner + "." + item == name;
      var second := QuoteName(item);
      NameRoundTrip(owner, "." + second);
      NameRoundTrip(item, "");
      assert QuoteName(owner) + ("." + second) == QuoteName(owner) + "." + second;
      assert second + "" == second && ("." + second)[1..] == second;
    }
  }

  /** The reader recovers what a target means from its printed form. */
  lemma TargetRoundTrip(upper: char -> char, target: string)
    requires Casing(upper)
    ensures ReadTarget(QuotePermissionTarget(upper, target)) == Some(Meaning(upper, target))
  {
    var i := FindColons(target);
    if i == |target| {
      KeywordStays(upper, target);
    } else {
      var scope, name := target[..i], target[i + 2..];
      assert scope + "::" == target[..i + 2];
      forall j | 0 <= j < i
        ensures !ColonsAt(scope + "::", j)
      {
        assert !ColonsAt(target, j);
      }
      ScopeSplits(upper, scope, PrintName(name));
      NameReadsBack(ToUpper(upper, scope), name, QuotePermissionTarget(upper, target));
    }
  }

  /** Two targets are printed alike exactly when they mean the same: equal up to the case of the scope or keyword. */
  lemma TargetInjective(upper: char -> char, a: string, b: string)
    requires Casing(upper)
    ensures QuotePermissionTarget(upper, a) == QuotePermissionTarget(upper, b) <==>
            Meaning(upper, a) == Meaning(upper, b)
  {
    TargetRoundTrip(upper, a);
    TargetRoundTrip(upper, b);
    if Meaning(upper, a) == Meaning(upper, b) {
      SamePrint(upper, a, b);
    }
  }

  lemma SamePrint(upper: char -> char, a: string, b: string)
    requires Meaning(upper, a) == Meaning(upper, b)
    ensures QuotePermissionTarget(upper, a) == QuotePermissionTarget(upper, b)
  {
  }

  /** The printed form, part by part: a keyword alone; a scope with a name without a dot; a scope with the parts of a
      name before and after its first dot. Only the scope changes its case. */
  lemma TargetShape(upper: char -> char, scope: string, owner: string, item: string)
    requires Casing(upper) && (forall j :: 0 <= j < |scope| ==> !ColonsAt(scope + "::", j)) && '.' !in owner
    ensures QuotePermissionTarget(upper, scope) == ToUpper(upper, scope)
    ensures QuotePermissionTarget(upper, scope + "::" + owner) ==
            ToUpper(upper, scope) + "::" + ("[" + Double(owner, ']') + "]")
    ensures QuotePermissionTarget(upper, scope + "::" + (owner + "." + item)) ==
            ToUpper(upper, scope) + "::" + ("[" + Double(owner, ']') + "]" + "." + ("[" + Double(item, ']') + "]"))
  {
    NoColons(scope);
    SplitsHere(scope, owner);
    SplitsHere(scope, owner + "." + item);
    PrintedParts(owner, item);
  }

  lemma PrintedParts(owner: string, item: string)
    requires '.' !in owner
    ensures PrintName(owner) == "[" + Double(owner, ']') + "]"
    ensures PrintName(owner + "." + item) == "[" + Double(owner, ']') + "]" + "." + ("[" + Double(item, ']') + "]")
  {
    var dotted := owner + "." + item;
    assert FirstIn(owner, {'.'}) == |owner|;
    assert dotted[|owner|] == '.' && forall j :: 0 <= j < |owner| ==> dotted[j] != '.';
    assert FirstIn(dotted, {'.'}) == |owner|;
    assert dotted[..|owner|] == owner && dotted[|owner| + 1..] == item;
  }

  lemma NoColons(scope: string)
    requires forall j :: 0 <= j < |scope| ==> !ColonsAt(scope + "::", j)
    ensures SplitScope(scope) == (scope, None)
  {
    forall j | 0 <= j < |scope|
      ensures !ColonsAt(scope, j)
    {
      assert !ColonsAt(scope + "::", j);
    }
  }

  lemma SplitsHere(scope: string, rest: string)
    requires forall j :: 0 <= j < |scope| ==> !ColonsAt(scope + "::", j)
    ensures SplitScope(scope + "::" + rest) == (scope, Some(rest))
  {
    var s := scope + "::" + rest;
    assert ColonsAt(s, |scope|);
    forall j | 0 <= j < |scope|
      ensures !ColonsAt(s, j)
    {
      assert !ColonsAt(scope + "::", j);
    }
    assert FindColons(s) == |scope| && s[..|scope|] == scope && s[|scope| + 2..] == rest;
  }
}
