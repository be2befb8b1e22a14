/** Wildcard patterns and the backtracking matcher (string_utils.cpp). */
module Wildcard {
  import opened Wrappers

  const STAR: char := '*'
  const QUESTION: char := '?'
  const ESCAPE: char := '\\'

  /** What a pattern means: any run of characters, any one character, or a given character. */
  datatype Token = Star | AnyChar | Literal(c: char) {
    predicate Accepts(x: char) {
      match this
      case Star => false
      case AnyChar => true
      case Literal(c) => x == c
    }
  }

  /** The tokens of a pattern; a dangling escape stands for nothing. */
  function Tokens(w: string): seq<Token> {
    if w == "" then []
    else if w[0] == STAR then [Star] + Tokens(w[1..])
    else if w[0] == QUESTION then [AnyChar] + Tokens(w[1..])
    else if w[0] != ESCAPE then [Literal(w[0])] + Tokens(w[1..])
    else if |w| == 1 then []
    else [Literal(w[1])] + Tokens(w[2..])
  }

  /** Whether a string matches a pattern. */
  predicate Matches(t: string, p: seq<Token>)
    decreases |p|, |t|
  {
    if p == [] then t == ""
    else if p[0].Star? then Matches(t, p[1..]) || (t != "" && Matches(t[1..], p))
    else t != "" && p[0].Accepts(t[0]) && Matches(t[1..], p[1..])
  }

  predicate StarFree(p: seq<Token>) {
    Star !in p
  }

  /** No two stars in a row and no dangling escape: what the matcher demands of its patterns. */
  predicate Clean(w: string) {
    if w == "" then true
    else if w[0] == STAR then (|w| > 1 ==> w[1] != STAR) && Clean(w[1..])
    else if w[0] == ESCAPE then |w| > 1 && Clean(w[2..])
    else Clean(w[1..])
  }

  /** The group begins with an escaped '*' or an escaped escape. */
  predicate StartsWithEscapedMeta(w: string) {
    |w| > 1 && w[0] == ESCAPE && (w[1] == STAR || w[1] == ESCAPE)
  }

  predicate IsSpecial(c: char) {
    c == STAR || c == QUESTION || c == ESCAPE
  }

  /** Some character is accepted by both tokens. */
  predicate Compatible(x: Token, y: Token) {
    !x.Star? && !y.Star? && (x.AnyChar? || y.AnyChar? || x == y)
  }

  /** The tokens h can match e characters into a match of g. */
  predicate Follows(g: seq<Token>, h: seq<Token>, e: nat) {
    forall k :: e <= k < |g| && k < e + |h| ==> Compatible(g[k], h[k - e])
  }

  /** No token from i up to e stands for an escape only. */
  predicate NoEscapeIn(g: seq<Token>, i: nat, e: nat) {
    e <= |g| && forall k :: i <= k < e ==> g[k] != Literal(ESCAPE)
  }

  /** The group can match again e characters after a match, with no escape in between. */
  predicate OverlapsAt(g: seq<Token>, e: nat) {
    1 <= e && NoEscapeIn(g, 1, e) && e <= |g| && Follows(g, g, e)
  }

  predicate Overlaps(g: seq<Token>) {
    exists e :: 1 <= e <= |g| && OverlapsAt(g, e)
  }

  /** The group with any character in place of its second token. */
  function Slipped(g: seq<Token>): seq<Token>
    requires |g| > 1
  {
    g[1 := AnyChar]
  }

  /** That can follow a match e characters later, with no escape in between, without being the group. */
  predicate SlipsAt(g: seq<Token>, e: nat)
    requires |g| > 1
  {
    && 1 <= e && NoEscapeIn(g, 1, e) && Follows(g, Slipped(g), e)
    && (e + 1 < |g| ==> g[e + 1] != Literal(QUESTION))
  }

  predicate Slips(g: seq<Token>) {
    |g| > 1 && exists e :: 1 <= e <= |g| && SlipsAt(g, e)
  }

  /** The group without its second token, and with the next one standing for the character c only. */
  function Tripped(g: seq<Token>, c: char): seq<Token>
    requires |g| > 2
  {
    [g[0], Literal(c)] + g[3..]
  }

  /** The group, or what is read in its place, can follow a match with no escape in between. */
  predicate TripsAt(g: seq<Token>, c: char, e: nat)
    requires |g| > 2
  {
    3 <= e && NoEscapeIn(g, 2, e) && (Follows(g, g, e) || Follows(g, Tripped(g, c), e))
  }

  predicate Trips(g: seq<Token>, c: char) {
    |g| > 2 && exists e :: 3 <= e <= |g| && TripsAt(g, c, e)
  }

  /** How many escaped escapes the group begins with. */
  function EscapePairs(w: string): (n: nat)
    ensures 2 * n <= |w| && forall k :: 0 <= k < 2 * n ==> w[k] == ESCAPE
    ensures 2 * n + 1 < |w| ==> w[2 * n] != ESCAPE || w[2 * n + 1] != ESCAPE
  {
    if |w| > 1 && w[0] == ESCAPE && w[1] == ESCAPE then 1 + EscapePairs(w[2..]) else 0
  }

  /** Starting over at a group that begins with escaped escapes does no harm. What is read in its place
      begins at the second character. */
  predicate EscapesSafe(w: string) {
    var n, g := EscapePairs(w), Tokens(w);
    if |w| == 2 * n then false
    else if w[2 * n] == ESCAPE then n > 1 || (|w| > 3 && w[3] != STAR && (w[3] == QUESTION ==> !Slips(g)))
    else if n == 1 then !Overlaps(g)
    else !OverlapsAt(g, 1) && (n == 2 ==> !Trips(g, w[4]))
  }

  /** Starting over at the group does no harm: it does not begin with an escaped '*' or escape, or it
      does begin with escaped escapes but what follows makes up for them. */
  predicate GroupSafe(w: string) {
    !StartsWithEscapedMeta(w) || (w[1] == ESCAPE && EscapesSafe(w))
  }

  /** Starting over at the group after the last star does no harm. */
  predicate SafeToRestart(w: string) {
    if w == "" then true
    else if w[0] == STAR then (StarFree(Tokens(w[1..])) ==> GroupSafe(w[1..])) && SafeToRestart(w[1..])
    else if w[0] == ESCAPE then |w| == 1 || SafeToRestart(w[2..])
    else SafeToRestart(w[1..])
  }

  // ---- The matcher -------------------------------------------------------------------------

  datatype Outcome = Yes | No | ReadPastEnd

  /** Where to resume after a mismatch: the last star's group, and where it was tried. */
  datatype Mark = Mark(tame: nat, wild: nat)

  /** The result of looking for a character the group can begin with. */
  datatype Advance = Found(tame: nat, wild: nat) | Exhausted | PastEnd

  function FindChar(t: string, c: char, i: nat): (k: nat)
    requires i <= |t|
    ensures i <= k <= |t|
    ensures k < |t| ==> t[k] == c
    ensures forall m :: i <= m < k ==> t[m] != c
    decreases |t| - i
  {
    if i == |t| || t[i] == c then i else FindChar(t, c, i + 1)
  }

  /** Moves to the next place at or after i where the group at j can begin; the wild position moves
      past an escape. */
  function AdvanceTame(tame: string, wild: string, i: nat, j: nat): (a: Advance)
    requires i <= |tame| && j < |wild|
    ensures a.Found? ==> i <= a.tame < |tame| && j <= a.wild < |wild|
  {
    if wild[j] == QUESTION then
      if i < |tame| then Found(i, j) else PastEnd
    else
      var j1 := if wild[j] == ESCAPE then j + 1 else j;
      if j1 == |wild| then PastEnd
      else
        var k := FindChar(tame, wild[j1], i);
        if k == |tame| then Exhausted else Found(k, j1)
  }

  predicate ValidState(tame: string, wild: string, i: nat, j: nat, mark: Option<Mark>) {
    && i < |tame| && j < |wild|
    && (mark.Some? ==> mark.value.tame <= i && mark.value.wild <= j)
  }

  ghost function WildLeft(wild: string, mark: Option<Mark>): int {
    if mark.Some? then |wild| - mark.value.wild else |wild| + 1
  }

  ghost function TameLeft(tame: string, mark: Option<Mark>): int {
    if mark.Some? then |tame| - mark.value.tame else |tame| + 1
  }

  /** The rest of the matcher's loop from the top, at tame[i] and wild[j]. */
  function Run(tame: string, wild: string, i: nat, j: nat, mark: Option<Mark>): Outcome
    requires ValidState(tame, wild, i, j, mark)
    decreases WildLeft(wild, mark), TameLeft(tame, mark), |tame| - i, 1
  {
    if wild[j] == STAR then
      if j + 1 == |wild| then Yes else Scan(tame, wild, i, j + 1)
    else
      var escaped := wild[j] == ESCAPE;
      var j1 := if escaped then j + 1 else j;
      if j1 == |wild| then ReadPastEnd
      else if (!escaped && wild[j1] == QUESTION) || tame[i] == wild[j1] then Next(tame, wild, i, j1, mark)
      else if mark.None? then No
      else Scan(tame, wild, mark.value.tame + 1, mark.value.wild)
  }

  /** The search for a place for the group at b, from i on. */
  function Scan(tame: string, wild: string, i: nat, b: nat): Outcome
    requires i <= |tame| && b < |wild|
    decreases |wild| - b, |tame| - i, |tame| - i, 2
  {
    match AdvanceTame(tame, wild, i, b)
    case Exhausted => No
    case PastEnd => ReadPastEnd
    case Found(i', j') => Next(tame, wild, i', j', Some(Mark(i', b)))
  }

  /** Steps past a matched pair and handles the ends of both strings. */
  function Next(tame: string, wild: string, i: nat, j: nat, mark: Option<Mark>): Outcome
    requires ValidState(tame, wild, i, j, mark)
    decreases WildLeft(wild, mark), TameLeft(tame, mark), |tame| - i, 0
  {
    if i + 1 == |tame| then
      if j + 1 == |wild| || (wild[j + 1] == STAR && j + 2 == |wild|) then Yes else No
    else if j + 1 == |wild| then
      if mark.None? then No else Restart(tame, wild, mark.value)
    else Run(tame, wild, i + 1, j + 1, mark)
  }

  /** Where the matcher goes when the pattern ends before the string. */
  function Restart(tame: string, wild: string, mark: Mark): Outcome
    requires mark.tame < |tame| && mark.wild < |wild|
    decreases |wild| - mark.wild, |tame| - mark.tame - 1, |tame|, 2
  {
    match AdvanceTame(tame, wild, mark.tame + 1, mark.wild)
    case Exhausted => No
    case PastEnd => ReadPastEnd
    case Found(i, j) => Run(tame, wild, i, j, Some(Mark(i, mark.wild)))
  }

  function RunFromStart(tame: string, wild: string): Outcome {
    if wild == "" then (if tame == "" then Yes else No)
    else if tame == "" then (if wild == [STAR] then Yes else No)
    else Run(tame, wild, 0, 0, None)
  }
}
