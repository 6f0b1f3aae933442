/**
  The four log-line shapes and the classifier that tries them in a fixed order
  (parse_steamid, parse_session_userid_connect, parse_player_connected, parse_disconnect).

  Each parser is a regular-expression search: it tries every start position from the
  left and takes the first one where the whole pattern matches. `\d+` and `\S+` are
  greedy; because every one of them is followed by a character that cannot belong to the
  run (`]`, a space, or nothing that is a digit), the group is always the maximal run.
 */
module LogPatterns {
  import opened Wrappers

  const AcceptedPrefix := "Accepted connection from "
  const LinkedPrefix := "Connected to userid:"
  const DisconnectPrefix := "Disconnected from userid:"
  const PlayerOpen := "[userid:"
  const PlayerMiddle := "] player "
  const PlayerClose := " connected"

  /** `\d`, restricted to ASCII digits. */
  predicate IsDigit(c: char) {
    '0' <= c <= '9'
  }

  /** `\s` on ASCII characters, as Python's str patterns see it: tab..carriage return, 0x1C..0x1F, space. */
  predicate IsSpace(c: char) {
    c == ' ' || ('\t' <= c <= '\r') || ('\U{1C}' <= c <= '\U{1F}')
  }

  /** `\S` */
  predicate IsNonSpace(c: char) {
    !IsSpace(c)
  }

  /** What `(\d+)` captures: a non-empty run of digits. */
  predicate IsDigitString(s: string) {
    |s| > 0 && forall i :: 0 <= i < |s| ==> IsDigit(s[i])
  }

  /** What `(\S+)` captures: a non-empty run without whitespace. */
  predicate IsName(s: string) {
    |s| > 0 && forall i :: 0 <= i < |s| ==> IsNonSpace(s[i])
  }

  /** The text `lit` occurs in `s` starting at position `i`. */
  predicate LiteralAt(s: string, i: nat, lit: string) {
    i + |lit| <= |s| && s[i..i + |lit|] == lit
  }

  /** Length of the longest run of characters satisfying `p` that starts at `s[i]` (a greedy `+` or `*`). */
  function RunLength(s: string, i: nat, p: char -> bool): (n: nat)
    requires i <= |s|
    ensures i + n <= |s|
    ensures forall k :: i <= k < i + n ==> p(s[k])
    ensures i + n == |s| || !p(s[i + n])
    decreases |s| - i
  {
    if i < |s| && p(s[i]) then 1 + RunLength(s, i + 1, p) else 0
  }

  /** `prefix(\d+)` matches at position i: the prefix is there and a digit follows it. */
  predicate PrefixThenDigit(raw: string, prefix: string, i: nat) {
    LiteralAt(raw, i, prefix) && i + |prefix| < |raw| && IsDigit(raw[i + |prefix|])
  }

  /** The group of `prefix(\d+)` when the pattern matches at position i: the digit run after the prefix. */
  function DigitsAt(raw: string, prefix: string, i: nat): string
    requires PrefixThenDigit(raw, prefix, i)
  {
    raw[i + |prefix|..i + |prefix| + RunLength(raw, i + |prefix|, IsDigit)]
  }

  /**
    `re.search(prefix + r"(\d+)", raw).group(1)`, or None. The line matches exactly when
    the prefix occurs followed by a digit; the group is then the whole digit run after the
    leftmost such occurrence.
   */
  function DigitsAfter(raw: string, prefix: string): (r: Option<string>)
    ensures r.Some? <==> exists i :: PrefixThenDigit(raw, prefix, i)
    ensures r.Some? ==> IsDigitString(r.value)
    ensures r.Some? ==> exists i: nat :: LeftmostDigits(raw, prefix, i, r.value)
  {
    match FirstDigitsMatch(raw, prefix, 0)
    case None => None
    case Some(i) =>
      DigitsAtShape(raw, prefix, i);
      assert LeftmostDigits(raw, prefix, i, DigitsAt(raw, prefix, i));
      Some(DigitsAt(raw, prefix, i))
  }

  /** `g` is the whole digit run after the leftmost match of `prefix(\d+)`, at position i. */
  predicate LeftmostDigits(raw: string, prefix: string, i: nat, g: string) {
    && PrefixThenDigit(raw, prefix, i)
    && (forall j :: 0 <= j < i ==> !PrefixThenDigit(raw, prefix, j))
    && LiteralAt(raw, i, prefix + g)
    && (i + |prefix| + |g| == |raw| || !IsDigit(raw[i + |prefix| + |g|]))
  }

  /**
    The leftmost-match rule of `re.search` for `prefix(\d+)`: the first position from `i`
    on where the pattern matches, or none.
   */
  function FirstDigitsMatch(raw: string, prefix: string, i: nat): (r: Option<nat>)
    ensures r.None? ==> forall j: nat :: i <= j ==> !PrefixThenDigit(raw, prefix, j)
    ensures r.Some? ==> i <= r.value && PrefixThenDigit(raw, prefix, r.value)
    ensures r.Some? ==> forall j :: i <= j < r.value ==> !PrefixThenDigit(raw, prefix, j)
    decreases |raw| + 1 - i
  {
    if i > |raw| then None
    else if PrefixThenDigit(raw, prefix, i) then Some(i)
    else FirstDigitsMatch(raw, prefix, i + 1)
  }

  /** What the group found at position i says about the line. */
  lemma DigitsAtShape(raw: string, prefix: string, i: nat)
    requires PrefixThenDigit(raw, prefix, i)
    ensures var g := DigitsAt(raw, prefix, i);
      && IsDigitString(g)
      && LiteralAt(raw, i, prefix + g)
      && (i + |prefix| + |g| == |raw| || !IsDigit(raw[i + |prefix| + |g|]))
  {
    var g := DigitsAt(raw, prefix, i);
    var n := RunLength(raw, i + |prefix|, IsDigit);
    assert raw[i..i + |prefix| + |g|] == raw[i..i + |prefix|] + raw[i + |prefix|..i + |prefix| + n];
  }

  /** parse_steamid: "Accepted connection from <digits>". */
  function ParseSteamId(raw: string): (r: Option<string>)
    ensures r.Some? ==> IsDigitString(r.value)
    ensures r.Some? <==> exists i :: PrefixThenDigit(raw, AcceptedPrefix, i)
  {
    DigitsAfter(raw, AcceptedPrefix)
  }

  /** parse_session_userid_connect: "Connected to userid:<digits>". */
  function ParseLinkedToken(raw: string): (r: Option<string>)
    ensures r.Some? ==> IsDigitString(r.value)
    ensures r.Some? <==> exists i :: PrefixThenDigit(raw, LinkedPrefix, i)
  {
    DigitsAfter(raw, LinkedPrefix)
  }

  /** parse_disconnect: "Disconnected from userid:<digits>". */
  function ParseDisconnectToken(raw: string): (r: Option<string>)
    ensures r.Some? ==> IsDigitString(r.value)
    ensures r.Some? <==> exists i :: PrefixThenDigit(raw, DisconnectPrefix, i)
  {
    DigitsAfter(raw, DisconnectPrefix)
  }

  /** The text `\[userid:(\d+)\] player (\S+) connected` matches with these two groups. */
  function PlayerLine(token: string, name: string): string {
    PlayerOpen + token + PlayerMiddle + name + PlayerClose
  }

  /** The groups of `\[userid:(\d+)\] player (\S+) connected` when it matches at position i. */
  function PlayerAt(raw: string, i: nat): Option<(string, string)> {
    if LiteralAt(raw, i, PlayerOpen) then TokenAndNameAt(raw, i + |PlayerOpen|) else None
  }

  /** The rest of the pattern after `[userid:`, from position j: `(\d+)\] player (\S+) connected`. */
  function TokenAndNameAt(raw: string, j: nat): Option<(string, string)>
    requires j <= |raw|
  {
    var n := RunLength(raw, j, IsDigit);
    var k := j + n;
    if n > 0 && LiteralAt(raw, k, PlayerMiddle) then
      match NameAt(raw, k + |PlayerMiddle|)
      case Some(name) => Some((raw[j..k], name))
      case None => None
    else None
  }

  /** The tail of the pattern, from position p: `(\S+) connected`. */
  function NameAt(raw: string, p: nat): Option<string>
    requires p <= |raw|
  {
    var m := RunLength(raw, p, IsNonSpace);
    if m > 0 && LiteralAt(raw, p + m, PlayerClose) then Some(raw[p..p + m]) else None
  }

  /** Two literals side by side make one. */
  lemma LiteralJoin(s: string, i: nat, a: string, b: string)
    requires LiteralAt(s, i, a) && LiteralAt(s, i + |a|, b)
    ensures LiteralAt(s, i, a + b)
  {
    assert s[i..i + |a| + |b|] == s[i..i + |a|] + s[i + |a|..i + |a| + |b|];
  }

  /** What a successful PlayerAt says about the line. */
  lemma PlayerAtShape(raw: string, i: nat)
    requires PlayerAt(raw, i).Some?
    ensures var (token, name) := PlayerAt(raw, i).value;
      IsDigitString(token) && IsName(name) && LiteralAt(raw, i, PlayerLine(token, name))
  {
    var (token, name) := PlayerAt(raw, i).value;
    var j := i + |PlayerOpen|;
    var k := j + |token|;
    var e := k + |PlayerMiddle| + |name|;
    assert LiteralAt(raw, j, token);
    LiteralJoin(raw, i, PlayerOpen, token);
    LiteralJoin(raw, i, PlayerOpen + token, PlayerMiddle);
    assert LiteralAt(raw, k + |PlayerMiddle|, name);
    LiteralJoin(raw, i, PlayerOpen + token + PlayerMiddle, name);
    LiteralJoin(raw, i, PlayerOpen + token + PlayerMiddle + name, PlayerClose);
  }

  /**
    parse_player_connected: the (session_userid, username) pair of the leftmost match of
    `\[userid:(\d+)\] player (\S+) connected`, both present or both absent.
   */
  function ParsePlayerConnected(raw: string): (r: Option<(string, string)>)
    ensures r.Some? ==> IsDigitString(r.value.0) && IsName(r.value.1)
    ensures r.Some? ==> exists i :: LiteralAt(raw, i, PlayerLine(r.value.0, r.value.1))
    ensures r.None? ==> forall i: nat :: i <= |raw| ==> PlayerAt(raw, i).None?
    ensures r.Some? ==> exists i: nat :: LeftmostPlayer(raw, i, r)
  {
    match FirstPlayerMatch(raw, 0)
    case None => None
    case Some(i) =>
      PlayerAtShape(raw, i);
      assert LeftmostPlayer(raw, i, PlayerAt(raw, i));
      PlayerAt(raw, i)
  }

  /** `r` is what the player pattern gives at position i, and it matches at no earlier position. */
  predicate LeftmostPlayer(raw: string, i: nat, r: Option<(string, string)>) {
    && i <= |raw|
    && PlayerAt(raw, i) == r
    && forall j :: 0 <= j < i ==> PlayerAt(raw, j).None?
  }

  /** The leftmost-match rule of `re.search` for the player pattern, from position `i` on. */
  function FirstPlayerMatch(raw: string, i: nat): (r: Option<nat>)
    ensures r.None? ==> forall j: nat :: i <= j <= |raw| ==> PlayerAt(raw, j).None?
    ensures r.Some? ==> i <= r.value <= |raw| && PlayerAt(raw, r.value).Some?
    ensures r.Some? ==> forall j :: i <= j < r.value ==> PlayerAt(raw, j).None?
    decreases |raw| + 1 - i
  {
    if i > |raw| then None
    else if PlayerAt(raw, i).Some? then Some(i)
    else FirstPlayerMatch(raw, i + 1)
  }

  /** A run that is already known to be maximal is the one RunLength measures. */
  lemma {:induction false} RunLengthOfRun(s: string, i: nat, n: nat, p: char -> bool)
    requires i + n <= |s|
    requires forall k :: i <= k < i + n ==> p(s[k])
    requires i + n == |s| || !p(s[i + n])
    ensures RunLength(s, i, p) == n
    decreases n
  {
    if n > 0 {
      RunLengthOfRun(s, i + 1, n - 1, p);
    }
  }

  /** One literal that is the join of two is the two side by side. */
  lemma LiteralSplit(s: string, i: nat, a: string, b: string)
    requires LiteralAt(s, i, a + b)
    ensures LiteralAt(s, i, a) && LiteralAt(s, i + |a|, b)
  {
    assert s[i..i + |a|] == (a + b)[..|a|];
    assert s[i + |a|..i + |a| + |b|] == (a + b)[|a|..];
  }

  /** A literal whose characters all satisfy `p`, with no further match after it, is the run RunLength measures from its start. */
  lemma RunOfLiteral(s: string, i: nat, w: string, p: char -> bool)
    requires LiteralAt(s, i, w)
    requires forall x :: 0 <= x < |w| ==> p(w[x])
    requires i + |w| == |s| || !p(s[i + |w|])
    ensures RunLength(s, i, p) == |w|
  {
    forall x | i <= x < i + |w| ensures p(s[x]) {
      assert s[x] == s[i..i + |w|][x - i] == w[x - i];
    }
    RunLengthOfRun(s, i, |w|, p);
  }

  /** The first character of a literal found at position i. */
  lemma LiteralHead(s: string, i: nat, lit: string)
    requires LiteralAt(s, i, lit) && |lit| > 0
    ensures s[i] == lit[0]
  {
    assert s[i] == s[i..i + |lit|][0];
  }

  /** A well-formed player-connected fragment at position i is a match there, with its own two groups. */
  lemma PlayerAtOfLine(raw: string, i: nat, token: string, name: string)
    requires IsDigitString(token) && IsName(name)
    requires LiteralAt(raw, i, PlayerLine(token, name))
    ensures PlayerAt(raw, i) == Some((token, name))
  {
    var j := i + |PlayerOpen|;
    var k := j + |token|;
    PlayerLineLiterals(raw, i, token, name);
    RunEndsAtLiteral(raw, k + |PlayerMiddle|, name, PlayerClose, IsNonSpace);
    NameAtFromParts(raw, k + |PlayerMiddle|, name);
    RunEndsAtLiteral(raw, j, token, PlayerMiddle, IsDigit);
    TokenAndNameAtFromParts(raw, j, token, name);
  }

  /** A run of `p` characters followed by a literal that starts with a non-`p` character is a maximal run. */
  lemma RunEndsAtLiteral(raw: string, j: nat, w: string, lit: string, p: char -> bool)
    requires LiteralAt(raw, j, w) && LiteralAt(raw, j + |w|, lit)
    requires |lit| > 0 && !p(lit[0])
    requires forall x :: 0 <= x < |w| ==> p(w[x])
    ensures RunLength(raw, j, p) == |w|
  {
    LiteralHead(raw, j + |w|, lit);
    RunOfLiteral(raw, j, w, p);
  }

  /** The five literals of a player-connected fragment, side by side. */
  lemma PlayerLineLiterals(raw: string, i: nat, token: string, name: string)
    requires LiteralAt(raw, i, PlayerLine(token, name))
    ensures LiteralAt(raw, i, PlayerOpen)
    ensures LiteralAt(raw, i + |PlayerOpen|, token)
    ensures LiteralAt(raw, i + |PlayerOpen| + |token|, PlayerMiddle)
    ensures LiteralAt(raw, i + |PlayerOpen| + |token| + |PlayerMiddle|, name)
    ensures LiteralAt(raw, i + |PlayerOpen| + |token| + |PlayerMiddle| + |name|, PlayerClose)
  {
    var b := PlayerOpen + token;
    var c := b + PlayerMiddle;
    var d := c + name;
    assert PlayerLine(token, name) == d + PlayerClose;
    LiteralSplit(raw, i, d, PlayerClose);
    LiteralSplit(raw, i, c, name);
    LiteralSplit(raw, i, b, PlayerMiddle);
    LiteralSplit(raw, i, PlayerOpen, token);
  }

  /** TokenAndNameAt, evaluated where the token, the middle literal and the name are known. */
  lemma TokenAndNameAtFromParts(raw: string, j: nat, token: string, name: string)
    requires |token| > 0 && LiteralAt(raw, j, token)
    requires RunLength(raw, j, IsDigit) == |token|
    requires LiteralAt(raw, j + |token|, PlayerMiddle)
    requires NameAt(raw, j + |token| + |PlayerMiddle|) == Some(name)
    ensures TokenAndNameAt(raw, j) == Some((token, name))
  {
    var k := j + |token|;
    assert raw[j..k] == token;
    assert TokenAndNameAt(raw, j) == Some((raw[j..k], name));
  }

  /** NameAt, evaluated where the name and the closing literal are known. */
  lemma NameAtFromParts(raw: string, p: nat, name: string)
    requires |name| > 0 && LiteralAt(raw, p, name)
    requires RunLength(raw, p, IsNonSpace) == |name|
    requires LiteralAt(raw, p + |name|, PlayerClose)
    ensures NameAt(raw, p) == Some(name)
  {
  }

  /**
    Completeness of the player pattern: wherever a well-formed player-connected fragment
    occurs in a line, parse_player_connected finds a match (the leftmost one).
   */
  lemma PlayerMatchComplete(raw: string, i: nat, token: string, name: string)
    requires IsDigitString(token) && IsName(name)
    requires LiteralAt(raw, i, PlayerLine(token, name))
    ensures ParsePlayerConnected(raw).Some?
  {
    PlayerAtOfLine(raw, i, token, name);
  }

  /** Round trip: the player parser recovers both fields from the line that carries them. */
  lemma PlayerRoundTrip(token: string, name: string, rest: string)
    requires IsDigitString(token) && IsName(name)
    ensures ParsePlayerConnected(PlayerLine(token, name) + rest) == Some((token, name))
  {
    var raw := PlayerLine(token, name) + rest;
    assert raw[0..|PlayerLine(token, name)|] == PlayerLine(token, name);
    PlayerAtOfLine(raw, 0, token, name);
  }

  /** Round trip: a digit parser recovers the id from a line that starts with its prefix and the id. */
  lemma DigitsRoundTrip(prefix: string, id: string, rest: string)
    requires IsDigitString(id)
    requires rest == [] || !IsDigit(rest[0])
    ensures DigitsAfter(prefix + id + rest, prefix) == Some(id)
  {
    var raw := prefix + id + rest;
    assert raw[..|prefix|] == prefix;
    assert raw[|prefix|..|prefix| + |id|] == id;
    assert |prefix| + |id| == |raw| || raw[|prefix| + |id|] == rest[0];
    RunOfLiteral(raw, |prefix|, id, IsDigit);
    assert PrefixThenDigit(raw, prefix, 0) && DigitsAt(raw, prefix, 0) == id;
  }

  /** The kinds of line the pipeline reacts to. */
  datatype Event =
    | Accepted(steamId: string)
    | Linked(token: string)
    | PlayerConnected(token: string, username: string)
    | Disconnected(token: string)
    | Unmatched

  /** The fields every parser hands on: digit ids and a whitespace-free, non-empty name. */
  predicate WellFormed(e: Event) {
    match e
    case Accepted(s) => IsDigitString(s)
    case Linked(t) => IsDigitString(t)
    case PlayerConnected(t, n) => IsDigitString(t) && IsName(n)
    case Disconnected(t) => IsDigitString(t)
    case Unmatched => true
  }

  /**
    The dispatch of process_single_log: the first parser that matches, in the order
    accepted, linked, player-connected, disconnect, decides the kind of the line.
   */
  function Classify(raw: string): (e: Event)
    ensures WellFormed(e)
    ensures e.Accepted? <==> ParseSteamId(raw).Some?
    ensures e.Linked? <==> ParseSteamId(raw).None? && ParseLinkedToken(raw).Some?
    ensures e.PlayerConnected? <==>
      ParseSteamId(raw).None? && ParseLinkedToken(raw).None? && ParsePlayerConnected(raw).Some?
    ensures e.Disconnected? <==>
      ParseSteamId(raw).None? && ParseLinkedToken(raw).None? && ParsePlayerConnected(raw).None?
      && ParseDisconnectToken(raw).Some?
    ensures e.Accepted? ==> ParseSteamId(raw) == Some(e.steamId)
    ensures e.Linked? ==> ParseLinkedToken(raw) == Some(e.token)
    ensures e.PlayerConnected? ==> ParsePlayerConnected(raw) == Some((e.token, e.username))
    ensures e.Disconnected? ==> ParseDisconnectToken(raw) == Some(e.token)
  {
    match ParseSteamId(raw)
    case Some(s) => Accepted(s)
    case None =>
      match ParseLinkedToken(raw)
      case Some(t) => Linked(t)
      case None =>
        match ParsePlayerConnected(raw)
        case Some((t, n)) => PlayerConnected(t, n)
        case None =>
          match ParseDisconnectToken(raw)
          case Some(t) => Disconnected(t)
          case None => Unmatched
  }
}
