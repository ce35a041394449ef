/**
 * The grammars of the environment variables: comma-separated lists of names, identity pairs, role
 * mappings and extra headers.
 */
module Grammar {
  import opened Common
  import opened Text

  type Pair = (string, string)

  datatype Reason =
    | MissingDelimiter
    | EmptyHalf
    | EmptyName
    | NotAToken
    | OwnedHeader
    | RepeatedHeader
    | EmptyValue
    | UnprintableValue

  /** Which piece of the variable was refused, counted from one, and why. */
  datatype Fault = Fault(position: nat, reason: Reason)

  const COMMA: char := ','

  // --- the pieces of a variable ---

  /** The stripped text between commas, empty pieces included. */
  function Pieces(value: string): (pieces: seq<string>)
    ensures pieces != []
  {
    var raw := SplitOn(value, COMMA);
    seq(|raw|, i requires 0 <= i < |raw| => Strip(raw[i]))
  }

  /** What a piece can be. */
  predicate Clean(s: string) {
    Trimmed(s) && COMMA !in s
  }

  lemma PiecesAreClean(value: string, i: nat)
    requires i < |Pieces(value)|
    ensures Clean(Pieces(value)[i])
  {
    SplitAvoids(value, COMMA, i);
    StripTrims(SplitOn(value, COMMA)[i]);
  }

  /** Joining clean pieces with commas and taking the pieces again gives them back. */
  lemma PiecesOfJoined(items: seq<string>)
    requires items != [] && forall i :: 0 <= i < |items| ==> Clean(items[i])
    ensures Pieces(JoinOn(items, COMMA)) == items
  {
    SplitOfJoined(items, COMMA);
    forall i | 0 <= i < |items| ensures Strip(items[i]) == items[i] {
      StripFixes(items[i]);
    }
  }

  lemma BlankHasOnePiece(value: string)
    requires Strip(value) == ""
    ensures Pieces(value) == [""]
  {
    AllSpaces(value);
    SplitWhole(value, COMMA);
  }

  lemma {:induction false} AllSpaces(s: string)
    requires Strip(s) == ""
    ensures forall i :: 0 <= i < |s| ==> IsSpace(s[i])
  {
    if s != "" {
      if IsSpace(s[0]) {
        AllSpaces(s[1..]);
      } else {
        assert StripLeft(s) == s;
        StripRightKeeps(s);
      }
    }
  }

  lemma {:induction false} StripRightKeeps(s: string)
    requires s != "" && !IsSpace(s[0])
    ensures StripRight(s) != ""
  {
    if IsSpace(s[|s| - 1]) {
      StripRightKeeps(s[..|s| - 1]);
    }
  }

  // --- a variable read piece by piece ---

  /** One piece read on top of what the earlier ones gave; the position is for the error alone. */
  type Step<!A> = (A, nat, string) -> Result<A, Fault>

  function Fold<A>(step: Step<A>, start: A, pieces: seq<string>): Result<A, Fault> {
    if pieces == [] then Ok(start)
    else
      var n := |pieces| - 1;
      match Fold(step, start, pieces[..n])
      case Ok(acc) => step(acc, n + 1, pieces[n])
      case Err(e) => Err(e)
  }

  /** A refused piece refuses the variable, whatever follows. */
  lemma {:induction false} RefusedStays<A>(step: Step<A>, start: A, pieces: seq<string>, n: nat)
    requires n <= |pieces| && Fold(step, start, pieces[..n]).Err?
    ensures Fold(step, start, pieces) == Fold(step, start, pieces[..n])
  {
    if n == |pieces| {
      assert pieces[..n] == pieces;
    } else {
      assert pieces[..|pieces| - 1][..n] == pieces[..n];
      RefusedStays(step, start, pieces[..|pieces| - 1], n);
    }
  }

  lemma FoldOneMore<A>(step: Step<A>, start: A, pieces: seq<string>, piece: string)
    ensures Fold(step, start, pieces).Ok? ==>
              Fold(step, start, pieces + [piece]) == step(Fold(step, start, pieces).value, |pieces| + 1, piece)
  {
    assert (pieces + [piece])[..|pieces|] == pieces;
  }

  lemma FoldOne<A>(step: Step<A>, start: A, pieces: seq<string>, i: nat)
    requires i < |pieces|
    ensures Fold(step, start, pieces[..i]).Ok? ==>
              Fold(step, start, pieces[..i + 1]) == step(Fold(step, start, pieces[..i]).value, i + 1, pieces[i])
  {
    assert pieces[..i + 1][..i] == pieces[..i];
  }

  // --- plain lists ---

  function NonEmpty(pieces: seq<string>): seq<string> {
    if pieces == [] then []
    else (if pieces[0] != "" then [pieces[0]] else []) + NonEmpty(pieces[1..])
  }

  function ParseCsvList(value: Option<string>): seq<string> {
    if value.None? || value.value == "" then [] else NonEmpty(Pieces(value.value))
  }

  /** What a list can hold. */
  predicate WellFormedList(items: seq<string>) {
    forall i :: 0 <= i < |items| ==> Clean(items[i]) && items[i] != ""
  }

  lemma {:induction false} NonEmptyKeeps(pieces: seq<string>)
    requires forall i :: 0 <= i < |pieces| ==> Clean(pieces[i])
    ensures WellFormedList(NonEmpty(pieces)) && (WellFormedList(pieces) ==> NonEmpty(pieces) == pieces)
  {
    if pieces != [] {
      NonEmptyKeeps(pieces[1..]);
      assert WellFormedList(pieces) ==> WellFormedList(pieces[1..]);
    }
  }

  lemma CsvAccepts(value: Option<string>)
    ensures WellFormedList(ParseCsvList(value))
  {
    if value.Some? {
      forall i | 0 <= i < |Pieces(value.value)| ensures Clean(Pieces(value.value)[i]) {
        PiecesAreClean(value.value, i);
      }
      NonEmptyKeeps(Pieces(value.value));
    }
  }

  /** Every list of clean non-empty items is what its own printed form parses to. */
  lemma CsvRoundTrip(items: seq<string>)
    requires WellFormedList(items)
    ensures ParseCsvList(Some(JoinOn(items, COMMA))) == items
  {
    if items != [] {
      PiecesOfJoined(items);
      NonEmptyKeeps(items);
    }
  }

  // --- pairs ---

  function Halves(piece: string, delimiter: char): Pair
    requires delimiter in piece
  {
    var (left, right) := Partition(piece, delimiter);
    (Strip(left), Strip(right))
  }

  function PrintPair(pair: Pair, delimiter: char): string {
    pair.0 + [delimiter] + pair.1
  }

  function PrintPairs(pairs: seq<Pair>, delimiter: char): (items: seq<string>)
    ensures |items| == |pairs|
  {
    seq(|pairs|, i requires 0 <= i < |pairs| => PrintPair(pairs[i], delimiter))
  }

  lemma SplitLast(pairs: seq<Pair>)
    requires pairs != []
    ensures pairs == pairs[..|pairs| - 1] + [pairs[|pairs| - 1]]
  {
  }

  lemma PrintPairsInit(pairs: seq<Pair>, delimiter: char)
    requires pairs != []
    ensures PrintPairs(pairs, delimiter)[..|pairs| - 1] == PrintPairs(pairs[..|pairs| - 1], delimiter)
  {
  }

  lemma PrintOneMore(pairs: seq<Pair>, last: Pair, delimiter: char)
    ensures PrintPairs(pairs + [last], delimiter) == PrintPairs(pairs, delimiter) + [PrintPair(last, delimiter)]
  {
  }

  function Print(pairs: seq<Pair>, delimiter: char): string {
    JoinOn(PrintPairs(pairs, delimiter), COMMA)
  }

  /** Both halves are clean and the left one does not hold the delimiter. */
  predicate CleanPair(pair: Pair, delimiter: char) {
    Clean(pair.0) && Clean(pair.1) && delimiter !in pair.0
  }

  lemma HalvesAreClean(piece: string, delimiter: char)
    requires Clean(piece) && delimiter in piece
    ensures CleanPair(Halves(piece, delimiter), delimiter)
  {
    var (left, right) := Partition(piece, delimiter);
    StripTrims(left);
    StripTrims(right);
  }

  lemma HalvesOfPrinted(pair: Pair, delimiter: char)
    requires CleanPair(pair, delimiter) && !IsSpace(delimiter) && delimiter != COMMA
    ensures var piece := PrintPair(pair, delimiter);
            Clean(piece) && piece != "" && delimiter in piece && Halves(piece, delimiter) == pair
  {
    PartitionOf(pair.0, delimiter, pair.1);
    StripFixes(pair.0);
    StripFixes(pair.1);
  }

  lemma PrintedPieces(pairs: seq<Pair>, delimiter: char)
    requires pairs != [] && !IsSpace(delimiter) && delimiter != COMMA
    requires forall i :: 0 <= i < |pairs| ==> CleanPair(pairs[i], delimiter)
    ensures Pieces(Print(pairs, delimiter)) == PrintPairs(pairs, delimiter)
  {
    forall i | 0 <= i < |pairs| ensures Clean(PrintPairs(pairs, delimiter)[i]) {
      HalvesOfPrinted(pairs[i], delimiter);
    }
    PiecesOfJoined(PrintPairs(pairs, delimiter));
  }

  // --- the operator allowlist ---

  const BAR: char := '|'

  function OperatorStep(acc: seq<Pair>, position: nat, piece: string): Result<seq<Pair>, Fault> {
    if piece == "" then Ok(acc)
    else if BAR !in piece then Err(Fault(position, MissingDelimiter))
    else if Halves(piece, BAR).0 == "" || Halves(piece, BAR).1 == "" then Err(Fault(position, EmptyHalf))
    else Ok(acc + [Halves(piece, BAR)])
  }

  function Operators(value: Option<string>): Result<seq<Pair>, Fault> {
    if value.None? || value.value == "" then Ok([]) else Fold(OperatorStep, [], Pieces(value.value))
  }

  method ParseOperatorAllowlist(value: Option<string>) returns (r: Result<seq<Pair>, Fault>)
    ensures r == Operators(value)
  {
    if value.None? || value.value == "" {
      return Ok([]);
    }
    var pieces := Pieces(value.value);
    var pairs: seq<Pair> := [];
    for i := 0 to |pieces|
      invariant Fold(OperatorStep, [], pieces[..i]) == Ok(pairs)
    {
      FoldOne(OperatorStep, [], pieces, i);
      var entry := pieces[i];
      if entry == "" {
        continue;
      }
      if BAR !in entry {
        RefusedStays(OperatorStep, [], pieces, i + 1);
        return Err(Fault(i + 1, MissingDelimiter));
      }
      var (issuer, subject) := Halves(entry, BAR);
      if issuer == "" || subject == "" {
        RefusedStays(OperatorStep, [], pieces, i + 1);
        return Err(Fault(i + 1, EmptyHalf));
      }
      pairs := pairs + [(issuer, subject)];
    }
    assert pieces[..|pieces|] == pieces;
    return Ok(pairs);
  }

  predicate WellFormedOperators(pairs: seq<Pair>) {
    forall i :: 0 <= i < |pairs| ==> CleanPair(pairs[i], BAR) && pairs[i].0 != "" && pairs[i].1 != ""
  }

  lemma {:induction false} OperatorsFoldClean(pieces: seq<string>)
    requires forall i :: 0 <= i < |pieces| ==> Clean(pieces[i])
    ensures var r := Fold(OperatorStep, [], pieces); r.Ok? ==> WellFormedOperators(r.value)
  {
    if pieces != [] {
      var n := |pieces| - 1;
      OperatorsFoldClean(pieces[..n]);
      if BAR in pieces[n] {
        HalvesAreClean(pieces[n], BAR);
      }
    }
  }

  lemma {:induction false} OperatorsFoldPrinted(pairs: seq<Pair>)
    requires WellFormedOperators(pairs)
    ensures Fold(OperatorStep, [], PrintPairs(pairs, BAR)) == Ok(pairs)
  {
    if pairs != [] {
      var n := |pairs| - 1;
      OperatorsFoldPrinted(pairs[..n]);
      PrintPairsInit(pairs, BAR);
      HalvesOfPrinted(pairs[n], BAR);
      SplitLast(pairs);
    }
  }

  /** The lists of operators the variable can set are exactly those that print and parse to themselves. */
  lemma OperatorsRoundTrip(pairs: seq<Pair>)
    ensures WellFormedOperators(pairs) <==> Operators(Some(Print(pairs, BAR))) == Ok(pairs)
    ensures WellFormedOperators(pairs) <==> exists value :: Operators(value) == Ok(pairs)
  {
    if WellFormedOperators(pairs) && pairs != [] {
      PrintedPieces(pairs, BAR);
      OperatorsFoldPrinted(pairs);
    }
    if value :| Operators(value) == Ok(pairs) {
      OperatorsAccept(value);
    }
  }

  lemma OperatorsAccept(value: Option<string>)
    ensures Operators(value).Ok? ==> WellFormedOperators(Operators(value).value)
  {
    if value.Some? {
      forall i | 0 <= i < |Pieces(value.value)| ensures Clean(Pieces(value.value)[i]) {
        PiecesAreClean(value.value, i);
      }
      OperatorsFoldClean(Pieces(value.value));
    }
  }

  // --- role mappings ---

  const COLON: char := ':'

  type Roles = map<string, string>

  function RoleStep(acc: Roles, position: nat, piece: string): Result<Roles, Fault> {
    if piece == "" then Ok(acc)
    else if COLON !in piece then Err(Fault(position, MissingDelimiter))
    else Ok(acc[Halves(piece, COLON).0 := Halves(piece, COLON).1])
  }

  function RoleMapping(value: Option<string>): Result<Roles, Fault> {
    if value.None? || value.value == "" then Ok(map[]) else Fold(RoleStep, map[], Pieces(value.value))
  }

  method ParseRoleMapping(value: Option<string>) returns (r: Result<Roles, Fault>)
    ensures r == RoleMapping(value)
  {
    if value.None? || value.value == "" {
      return Ok(map[]);
    }
    var pieces := Pieces(value.value);
    var result: Roles := map[];
    for i := 0 to |pieces|
      invariant Fold(RoleStep, map[], pieces[..i]) == Ok(result)
    {
      FoldOne(RoleStep, map[], pieces, i);
      var pair := pieces[i];
      if pair == "" {
        continue;
      }
      if COLON !in pair {
        RefusedStays(RoleStep, map[], pieces, i + 1);
        return Err(Fault(i + 1, MissingDelimiter));
      }
      var (external, role) := Halves(pair, COLON);
      result := result[external := role];
    }
    assert pieces[..|pieces|] == pieces;
    return Ok(result);
  }

  predicate WellFormedRoles(pairs: seq<Pair>) {
    forall i :: 0 <= i < |pairs| ==> CleanPair(pairs[i], COLON)
  }

  /** What the last pair with this key says. */
  function LastValue(pairs: seq<Pair>, key: string): Option<string> {
    if pairs == [] then None
    else
      var n := |pairs| - 1;
      if pairs[n].0 == key then Some(pairs[n].1) else LastValue(pairs[..n], key)
  }

  function Get(roles: Roles, key: string): Option<string> {
    if key in roles then Some(roles[key]) else None
  }

  lemma {:induction false} RolesFoldPrinted(pairs: seq<Pair>, key: string)
    requires WellFormedRoles(pairs)
    ensures var r := Fold(RoleStep, map[], PrintPairs(pairs, COLON)); r.Ok? && Get(r.value, key) == LastValue(pairs, key)
  {
    if pairs != [] {
      var n := |pairs| - 1;
      RolesFoldPrinted(pairs[..n], key);
      PrintPairsInit(pairs, COLON);
      HalvesOfPrinted(pairs[n], COLON);
    }
  }

  /** Printing any pairs, keys repeated or not, and parsing them keeps the last value of every key and no other key. */
  lemma RolesLastWins(pairs: seq<Pair>, key: string)
    requires WellFormedRoles(pairs)
    ensures var r := RoleMapping(Some(Print(pairs, COLON))); r.Ok? && Get(r.value, key) == LastValue(pairs, key)
  {
    if pairs != [] {
      PrintedPieces(pairs, COLON);
      RolesFoldPrinted(pairs, key);
    }
  }

  /** `pairs` lists the items of `roles`, each once, in some order. */
  predicate Lists(pairs: seq<Pair>, roles: Roles) {
    && (forall i :: 0 <= i < |pairs| ==> pairs[i].0 in roles && roles[pairs[i].0] == pairs[i].1)
    && (forall k :: k in roles ==> exists i :: 0 <= i < |pairs| && pairs[i].0 == k)
    && (forall i, j :: 0 <= i < j < |pairs| ==> pairs[i].0 != pairs[j].0)
  }

  predicate CleanRoles(roles: Roles) {
    forall k :: k in roles ==> Clean(k) && Clean(roles[k]) && COLON !in k
  }

  lemma {:induction false} RolesFoldClean(pieces: seq<string>)
    requires forall i :: 0 <= i < |pieces| ==> Clean(pieces[i])
    ensures var r := Fold(RoleStep, map[], pieces); r.Ok? ==> CleanRoles(r.value)
  {
    if pieces != [] {
      var n := |pieces| - 1;
      RolesFoldClean(pieces[..n]);
      if COLON in pieces[n] {
        HalvesAreClean(pieces[n], COLON);
      }
    }
  }

  /** A mapping that was parsed comes back from its printed form, whatever order its items are printed in. */
  lemma RolesRoundTrip(value: Option<string>, pairs: seq<Pair>)
    requires RoleMapping(value).Ok? && Lists(pairs, RoleMapping(value).value)
    ensures RoleMapping(Some(Print(pairs, COLON))) == RoleMapping(value)
  {
    var roles := RoleMapping(value).value;
    if value.Some? {
      forall i | 0 <= i < |Pieces(value.value)| ensures Clean(Pieces(value.value)[i]) {
        PiecesAreClean(value.value, i);
      }
      RolesFoldClean(Pieces(value.value));
    }
    assert CleanRoles(roles);
    forall i | 0 <= i < |pairs| ensures CleanPair(pairs[i], COLON) {
      assert pairs[i].0 in roles && roles[pairs[i].0] == pairs[i].1;
    }
    RolesLastWins(pairs, "");
    var again := RoleMapping(Some(Print(pairs, COLON))).value;
    forall k ensures Get(again, k) == Get(roles, k) {
      RolesLastWins(pairs, k);
      LastOfListed(pairs, k);
      if k in roles {
        var i :| 0 <= i < |pairs| && pairs[i].0 == k;
      }
    }
    SameMap(again, roles);
  }

  lemma SameMap(a: Roles, b: Roles)
    requires forall k :: Get(a, k) == Get(b, k)
    ensures a == b
  {
    forall k ensures (k in a <==> k in b) && (k in a ==> a[k] == b[k]) {
      assert Get(a, k) == Get(b, k);
    }
  }

  lemma {:induction false} LastOfListed(pairs: seq<Pair>, key: string)
    requires forall i, j :: 0 <= i < j < |pairs| ==> pairs[i].0 != pairs[j].0
    ensures forall i :: 0 <= i < |pairs| && pairs[i].0 == key ==> LastValue(pairs, key) == Some(pairs[i].1)
    ensures LastValue(pairs, key).Some? ==> exists i :: 0 <= i < |pairs| && pairs[i].0 == key
  {
    if pairs != [] {
      LastOfListed(pairs[..|pairs| - 1], key);
    }
  }

  // --- extra headers ---

  /** The characters a header name is built from: the token of section 3.2.6 of RFC 7230. */
  predicate IsTokenChar(c: char) {
    'a' <= c <= 'z' || 'A' <= c <= 'Z' || '0' <= c <= '9' || c in "!#$%&'*+-.^_`|~"
  }

  predicate IsToken(s: string) {
    forall i :: 0 <= i < |s| ==> IsTokenChar(s[i])
  }

  predicate IsPrintable(s: string) {
    forall i :: 0 <= i < |s| ==> ' ' <= s[i] <= '~'
  }

  const TRANSPORT_OWNED_HEADERS: set<string> :=
    {"content-type", "host", "content-length", "transfer-encoding", "connection"}

  /** `lower` is the language's case folding; nothing about it is used. */
  function Owned(lower: string -> string, authHeader: string): set<string> {
    TRANSPORT_OWNED_HEADERS + if Strip(authHeader) != "" then {lower(Strip(authHeader))} else {}
  }

  function Lowered(lower: string -> string, pairs: seq<Pair>): set<string> {
    set i | 0 <= i < |pairs| :: lower(pairs[i].0)
  }

  /** The first thing wrong with a piece that is not empty; `seen` holds the folded names so far. */
  function HeaderFault(lower: string -> string, owned: set<string>, seen: set<string>, piece: string): Option<Reason> {
    if COLON !in piece then Some(MissingDelimiter)
    else
      var (name, value) := Halves(piece, COLON);
      if name == "" then Some(EmptyName)
      else if !IsToken(name) then Some(NotAToken)
      else if lower(name) in owned then Some(OwnedHeader)
      else if lower(name) in seen then Some(RepeatedHeader)
      else if value == "" then Some(EmptyValue)
      else if !IsPrintable(value) then Some(UnprintableValue)
      else None
  }

  function HeaderStep(lower: string -> string, owned: set<string>): Step<seq<Pair>> {
    (acc: seq<Pair>, position: nat, piece: string) =>
      if piece == "" then Ok(acc)
      else
        match HeaderFault(lower, owned, Lowered(lower, acc), piece)
        case Some(reason) => Err(Fault(position, reason))
        case None => if COLON in piece then Ok(acc + [Halves(piece, COLON)]) else Ok(acc)
  }

  function Headers(lower: string -> string, value: string, authHeader: string): Result<seq<Pair>, Fault> {
    Fold(HeaderStep(lower, Owned(lower, authHeader)), [], Pieces(value))
  }

  method ParseExtractionExtraHeaders(lower: string -> string, value: string, authHeader: string)
    returns (r: Result<seq<Pair>, Fault>)
    ensures r == Headers(lower, value, authHeader)
  {
    var owned := Owned(lower, authHeader);
    ghost var step := HeaderStep(lower, owned);
    if Strip(value) == "" {
      BlankHasOnePiece(value);
      assert [""][..0] == [];
      return Ok([]);
    }
    var pieces := Pieces(value);
    var pairs: seq<Pair> := [];
    var seen: set<string> := {};
    for i := 0 to |pieces|
      invariant Fold(step, [], pieces[..i]) == Ok(pairs) && seen == Lowered(lower, pairs)
    {
      FoldOne(step, [], pieces, i);
      if pieces[i] == "" {
        continue;
      }
      var fault := HeaderFault(lower, owned, seen, pieces[i]);
      if fault.Some? {
        RefusedStays(step, [], pieces, i + 1);
        return Err(Fault(i + 1, fault.value));
      }
      var (name, headerValue) := Halves(pieces[i], COLON);
      LoweredOneMore(lower, pairs, (name, headerValue));
      seen := seen + {lower(name)};
      pairs := pairs + [(name, headerValue)];
    }
    assert pieces[..|pieces|] == pieces;
    return Ok(pairs);
  }

  lemma LoweredOneMore(lower: string -> string, pairs: seq<Pair>, pair: Pair)
    ensures Lowered(lower, pairs + [pair]) == Lowered(lower, pairs) + {lower(pair.0)}
  {
    var all := pairs + [pair];
    assert all[|pairs|] == pair && forall i :: 0 <= i < |pairs| ==> all[i] == pairs[i];
    forall x ensures x in Lowered(lower, all) <==> x in Lowered(lower, pairs) || x == lower(pair.0) {
      if x in Lowered(lower, pairs) {
        var i :| 0 <= i < |pairs| && lower(pairs[i].0) == x;
        assert lower(all[i].0) == x;
      }
      assert lower(all[|pairs|].0) == lower(pair.0);
    }
  }

  predicate WellFormedHeader(lower: string -> string, owned: set<string>, pair: Pair) {
    && pair.0 != "" && IsToken(pair.0) && lower(pair.0) !in owned
    && pair.1 != "" && IsPrintable(pair.1) && Clean(pair.1)
  }

  /** Well-formed headers whose names differ even with case folded. */
  predicate WellFormedHeaders(lower: string -> string, owned: set<string>, pairs: seq<Pair>) {
    && (forall i :: 0 <= i < |pairs| ==> WellFormedHeader(lower, owned, pairs[i]))
    && (forall i, j :: 0 <= i < j < |pairs| ==> lower(pairs[i].0) != lower(pairs[j].0))
  }

  /** A token is clean and holds no colon. */
  lemma TokenIsClean(s: string)
    requires IsToken(s)
    ensures Clean(s) && COLON !in s
  {
    forall i | 0 <= i < |s| ensures !IsSpace(s[i]) && s[i] != COMMA && s[i] != COLON {
      assert IsTokenChar(s[i]);
    }
  }

  lemma HeaderOneMore(lower: string -> string, owned: set<string>, pairs: seq<Pair>, pair: Pair)
    requires WellFormedHeaders(lower, owned, pairs)
    ensures WellFormedHeaders(lower, owned, pairs + [pair])
       <==> WellFormedHeader(lower, owned, pair) && lower(pair.0) !in Lowered(lower, pairs)
  {
    var all := pairs + [pair];
    assert all[|pairs|] == pair && forall i :: 0 <= i < |pairs| ==> all[i] == pairs[i];
    if lower(pair.0) in Lowered(lower, pairs) {
      var i :| 0 <= i < |pairs| && lower(pairs[i].0) == lower(pair.0);
      assert lower(all[i].0) == lower(all[|pairs|].0);
    }
    if lower(pair.0) !in Lowered(lower, pairs) {
      forall i | 0 <= i < |pairs| ensures lower(all[i].0) != lower(all[|pairs|].0) {
        assert lower(pairs[i].0) in Lowered(lower, pairs);
      }
    }
  }

  lemma {:induction false} HeadersFoldClean(lower: string -> string, owned: set<string>, pieces: seq<string>)
    requires forall i :: 0 <= i < |pieces| ==> Clean(pieces[i])
    ensures var r := Fold(HeaderStep(lower, owned), [], pieces); r.Ok? ==> WellFormedHeaders(lower, owned, r.value)
  {
    if pieces != [] {
      var n := |pieces| - 1;
      HeadersFoldClean(lower, owned, pieces[..n]);
      var before := Fold(HeaderStep(lower, owned), [], pieces[..n]);
      if before.Ok? && COLON in pieces[n] && HeaderFault(lower, owned, Lowered(lower, before.value), pieces[n]).None? {
        HalvesAreClean(pieces[n], COLON);
        HeaderOneMore(lower, owned, before.value, Halves(pieces[n], COLON));
      }
    }
  }

  lemma HeaderLast(lower: string -> string, owned: set<string>, pairs: seq<Pair>)
    requires pairs != [] && WellFormedHeaders(lower, owned, pairs)
    ensures var (before, last) := (pairs[..|pairs| - 1], pairs[|pairs| - 1]);
            && WellFormedHeaders(lower, owned, before)
            && WellFormedHeader(lower, owned, last) && lower(last.0) !in Lowered(lower, before)
  {
    SplitLast(pairs);
    HeaderOneMore(lower, owned, pairs[..|pairs| - 1], pairs[|pairs| - 1]);
  }

  lemma HeaderOfPrinted(lower: string -> string, owned: set<string>, acc: seq<Pair>, position: nat, pair: Pair)
    requires WellFormedHeader(lower, owned, pair) && lower(pair.0) !in Lowered(lower, acc)
    ensures HeaderStep(lower, owned)(acc, position, PrintPair(pair, COLON)) == Ok(acc + [pair])
  {
    TokenIsClean(pair.0);
    HalvesOfPrinted(pair, COLON);
  }

  lemma {:induction false} HeadersFoldPrinted(lower: string -> string, owned: set<string>, pairs: seq<Pair>)
    requires WellFormedHeaders(lower, owned, pairs)
    ensures Fold(HeaderStep(lower, owned), [], PrintPairs(pairs, COLON)) == Ok(pairs)
  {
    if pairs != [] {
      var before, last := pairs[..|pairs| - 1], pairs[|pairs| - 1];
      SplitLast(pairs);
      HeaderLast(lower, owned, pairs);
      HeadersFoldPrinted(lower, owned, before);
      HeaderFoldsOn(lower, owned, before, last);
    }
  }

  lemma HeaderFoldsOn(lower: string -> string, owned: set<string>, before: seq<Pair>, last: Pair)
    requires WellFormedHeader(lower, owned, last) && lower(last.0) !in Lowered(lower, before)
    ensures Fold(HeaderStep(lower, owned), [], PrintPairs(before, COLON)) == Ok(before) ==>
              Fold(HeaderStep(lower, owned), [], PrintPairs(before + [last], COLON)) == Ok(before + [last])
  {
    PrintOneMore(before, last, COLON);
    FoldOneMore(HeaderStep(lower, owned), [], PrintPairs(before, COLON), PrintPair(last, COLON));
    HeaderOfPrinted(lower, owned, before, |before| + 1, last);
  }

  lemma HeadersAccept(lower: string -> string, value: string, authHeader: string)
    ensures var r := Headers(lower, value, authHeader); r.Ok? ==> WellFormedHeaders(lower, Owned(lower, authHeader), r.value)
  {
    forall i | 0 <= i < |Pieces(value)| ensures Clean(Pieces(value)[i]) {
      PiecesAreClean(value, i);
    }
    HeadersFoldClean(lower, Owned(lower, authHeader), Pieces(value));
  }

  /**
   * The header lists the variable can set are exactly the well-formed ones, each the parse of its own
   * printed form: token names, distinct with case folded, none owned by the transport or the credential.
   */
  lemma HeadersRoundTrip(lower: string -> string, authHeader: string, pairs: seq<Pair>)
    ensures WellFormedHeaders(lower, Owned(lower, authHeader), pairs) <==> Headers(lower, Print(pairs, COLON), authHeader) == Ok(pairs)
    ensures WellFormedHeaders(lower, Owned(lower, authHeader), pairs) <==> exists value :: Headers(lower, value, authHeader) == Ok(pairs)
  {
    if WellFormedHeaders(lower, Owned(lower, authHeader), pairs) {
      if pairs == [] {
        BlankHasOnePiece("");
        assert [""][..0] == [];
      } else {
        forall i | 0 <= i < |pairs| ensures CleanPair(pairs[i], COLON) {
          TokenIsClean(pairs[i].0);
        }
        PrintedPieces(pairs, COLON);
        HeadersFoldPrinted(lower, Owned(lower, authHeader), pairs);
      }
    }
    if value :| Headers(lower, value, authHeader) == Ok(pairs) {
      HeadersAccept(lower, value, authHeader);
    }
  }
}
