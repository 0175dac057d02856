/** Payment URIs: the printer and the parser of soulon-wallet/src/core/bip21.ts.
    Texts are sequences of Unicode scalar values. */
module Bip21 {
  import opened Collections
  import opened Text
  import Form = FormEncoding

  datatype ErrorCode = InvalidUri | InvalidScheme | InvalidAddress | InvalidAmount

  datatype Result<T> = Ok(value: T) | Err(code: ErrorCode)

  datatype Input = Input(address: string, amount: Option<string>, memo: Option<string>, scheme: Option<string>)

  datatype Parsed = Parsed(scheme: string, address: string, amount: Option<string>, memo: Option<string>)

  // ---- Text helpers of the language -------------------------------------------------------

  /** White space and line terminators, as String.trim and \s take them. */
  predicate IsSpace(c: char) {
    || '\U{0009}' <= c <= '\U{000D}' || c == ' ' || c == '\U{00A0}' || c == '\U{1680}'
    || '\U{2000}' <= c <= '\U{200A}' || c == '\U{2028}' || c == '\U{2029}' || c == '\U{202F}'
    || c == '\U{205F}' || c == '\U{3000}' || c == '\U{FEFF}'
  }

  function TrimStart(s: string): string {
    if s != "" && IsSpace(s[0]) then TrimStart(s[1..]) else s
  }

  function TrimEnd(s: string): string {
    if s != "" && IsSpace(s[|s| - 1]) then TrimEnd(s[..|s| - 1]) else s
  }

  function Trim(s: string): string {
    TrimEnd(TrimStart(s))
  }

  /** Only what can turn into an ASCII letter: A to Z, and the Kelvin sign. Other
      characters keep a form that no scheme allows. */
  function LowerChar(c: char): char {
    if 'A' <= c <= 'Z' then ((c as int) + 32) as char
    else if c == '\U{212A}' then 'k'
    else c
  }

  function ToLower(s: string): string {
    seq(|s|, i requires 0 <= i < |s| => LowerChar(s[i]))
  }

  // ---- Validators ---------------------------------------------------------------------------

  function NonEmpty(value: string, code: ErrorCode): Result<string> {
    if Trim(value) == "" then Err(code) else Ok(Trim(value))
  }

  predicate SchemeStart(c: char) {
    'a' <= c <= 'z'
  }

  predicate SchemeChar(c: char) {
    'a' <= c <= 'z' || '0' <= c <= '9' || c == '+' || c == '.' || c == '-'
  }

  predicate SchemePattern(s: string) {
    s != "" && SchemeStart(s[0]) && forall i | 0 <= i < |s| :: SchemeChar(s[i])
  }

  function ValidateScheme(scheme: string): Result<string> {
    match NonEmpty(scheme, InvalidScheme)
    case Err(code) => Err(code)
    case Ok(text) => if SchemePattern(ToLower(text)) then Ok(ToLower(text)) else Err(InvalidScheme)
  }

  predicate AddressChar(c: char) {
    !IsSpace(c) && c != '?' && c != '#'
  }

  function ValidateAddress(address: string): Result<string> {
    match NonEmpty(address, InvalidAddress)
    case Err(code) => Err(code)
    case Ok(text) => if forall i | 0 <= i < |text| :: AddressChar(text[i]) then Ok(text) else Err(InvalidAddress)
  }

  predicate Digits(s: string) {
    s != "" && forall i | 0 <= i < |s| :: '0' <= s[i] <= '9'
  }

  predicate WholePart(s: string) {
    Digits(s) && (s[0] == '0' ==> |s| == 1)
  }

  function FractionOf(s: string): string {
    var i := IndexOf(s, '.');
    if i < |s| then s[i + 1..] else ""
  }

  /** A whole number without leading zeros, then maybe a point and digits. */
  predicate DecimalPattern(s: string) {
    var i := IndexOf(s, '.');
    WholePart(s[..i]) && (i < |s| ==> Digits(FractionOf(s)))
  }

  function Power(base: nat, exponent: nat): nat {
    if exponent == 0 then 1 else base * Power(base, exponent - 1)
  }

  /** Number(s) > 0: the text denotes more than half the least positive double,
      2 to the power -1075; anything less is rounded to zero. */
  predicate NumberIsPositive(s: string) {
    var digits := s[..IndexOf(s, '.')] + FractionOf(s);
    ValueOf(digits) * Power(2, 1075) > Power(10, |FractionOf(s)|)
  }

  predicate AmountPattern(s: string) {
    DecimalPattern(s) && NumberIsPositive(s)
  }

  function ValidateAmount(amount: string): Result<string> {
    match NonEmpty(amount, InvalidAmount)
    case Err(code) => Err(code)
    case Ok(text) => if AmountPattern(text) then Ok(text) else Err(InvalidAmount)
  }

  // ---- The printer --------------------------------------------------------------------------

  function MemoPairs(memo: Option<string>): seq<Form.Pair> {
    if memo.Some? && Trim(memo.value) != "" then [Form.Pair("memo", Trim(memo.value))] else []
  }

  function Uri(scheme: string, address: string, params: seq<Form.Pair>): string {
    var query := Form.Serialize(params);
    if query == "" then scheme + ":" + address else scheme + ":" + address + "?" + query
  }

  function Generate(input: Input): Result<string> {
    match ValidateScheme(if input.scheme.Some? then input.scheme.value else "bitcoin")
    case Err(code) => Err(code)
    case Ok(scheme) =>
      match ValidateAddress(input.address)
      case Err(code) => Err(code)
      case Ok(address) =>
        if input.amount.None? then Ok(Uri(scheme, address, MemoPairs(input.memo)))
        else
          match ValidateAmount(input.amount.value)
          case Err(code) => Err(code)
          case Ok(amount) => Ok(Uri(scheme, address, [Form.Pair("amount", amount)] + MemoPairs(input.memo)))
  }

  // ---- The parser ---------------------------------------------------------------------------

  /** `memo`, or else `message`. */
  function MemoOf(params: seq<Form.Pair>): Option<string> {
    var found := if Form.Get(params, "memo").Some? then Form.Get(params, "memo") else Form.Get(params, "message");
    if found.Some? && Trim(found.value) != "" then Some(Trim(found.value)) else None
  }

  function ParseParams(scheme: string, address: string, params: seq<Form.Pair>): Result<Parsed> {
    match Form.Get(params, "amount")
    case None => Ok(Parsed(scheme, address, None, MemoOf(params)))
    case Some(text) =>
      match ValidateAmount(text)
      case Err(code) => Err(code)
      case Ok(amount) => Ok(Parsed(scheme, address, Some(amount), MemoOf(params)))
  }

  function ParsePayload(scheme: string, payload: string): Result<Parsed> {
    if payload == "" then Err(InvalidUri)
    else
      var i := IndexOf(payload, '?');
      match ValidateAddress(payload[..i])
      case Err(code) => Err(code)
      case Ok(address) =>
        if i == |payload| then Ok(Parsed(scheme, address, None, None))
        else ParseParams(scheme, address, Form.Parse(payload[i + 1..]))
  }

  function Parse(uri: string): Result<Parsed> {
    match NonEmpty(uri, InvalidUri)
    case Err(code) => Err(code)
    case Ok(text) =>
      var i := IndexOf(text, ':');
      if i == 0 || i == |text| then Err(InvalidUri)
      else
        match ValidateScheme(text[..i])
        case Err(code) => Err(code)
        case Ok(scheme) => ParsePayload(scheme, text[i + 1..])
  }

  // ---- Trimming is idempotent ------------------------------------------------------------------

  predicate Trimmed(s: string) {
    s != "" ==> !IsSpace(s[0]) && !IsSpace(s[|s| - 1])
  }

  lemma {:induction false} TrimStartStops(s: string)
    ensures TrimStart(s) != "" ==> !IsSpace(TrimStart(s)[0])
  {
    if s != "" && IsSpace(s[0]) {
      TrimStartStops(s[1..]);
    }
  }

  lemma {:induction false} TrimEndStops(s: string)
    ensures TrimEnd(s) != "" ==> !IsSpace(TrimEnd(s)[|TrimEnd(s)| - 1]) && TrimEnd(s)[0] == s[0]
    ensures |TrimEnd(s)| <= |s|
  {
    if s != "" && IsSpace(s[|s| - 1]) {
      TrimEndStops(s[..|s| - 1]);
    }
  }

  lemma TrimIsTrimmed(s: string)
    ensures Trimmed(Trim(s))
  {
    TrimStartStops(s);
    TrimEndStops(TrimStart(s));
  }

  lemma TrimmedStays(s: string)
    requires Trimmed(s)
    ensures Trim(s) == s
  {
  }

  // ---- Validated parts -------------------------------------------------------------------------

  predicate GoodScheme(s: string) {
    SchemePattern(s)
  }

  predicate GoodAddress(s: string) {
    s != "" && forall i | 0 <= i < |s| :: AddressChar(s[i])
  }

  predicate GoodAmount(s: string) {
    Trimmed(s) && s != "" && AmountPattern(s)
  }

  predicate GoodMemo(s: string) {
    Trimmed(s) && s != ""
  }

  /** What every parsed URI and every validated input looks like. */
  predicate Normal(p: Parsed) {
    && GoodScheme(p.scheme) && GoodAddress(p.address)
    && (p.amount.Some? ==> GoodAmount(p.amount.value))
    && (p.memo.Some? ==> GoodMemo(p.memo.value))
  }

  lemma SchemeValidates(s: string)
    requires GoodScheme(s)
    ensures ValidateScheme(s) == Ok(s)
  {
    assert SchemeChar(s[0]) && SchemeChar(s[|s| - 1]);
    assert Trimmed(s);
    TrimmedStays(s);
    assert forall i | 0 <= i < |s| :: SchemeChar(s[i]) && LowerChar(s[i]) == s[i];
    assert ToLower(s) == s;
  }

  lemma AddressValidates(s: string)
    requires GoodAddress(s)
    ensures Trimmed(s) && ValidateAddress(s) == Ok(s)
  {
    assert AddressChar(s[0]) && AddressChar(s[|s| - 1]);
    TrimmedStays(s);
  }

  lemma AmountValidates(s: string)
    requires GoodAmount(s)
    ensures ValidateAmount(s) == Ok(s)
  {
    hide AmountPattern;
    TrimmedStays(s);
  }

  /** Exactly which texts the validators accept, what they return for them, and
      which error the others get. */
  lemma ValidatedIsGood(s: string)
    ensures ValidateScheme(s) == if GoodScheme(ToLower(Trim(s))) then Ok(ToLower(Trim(s))) else Err(InvalidScheme)
    ensures ValidateAddress(s) == if GoodAddress(Trim(s)) then Ok(Trim(s)) else Err(InvalidAddress)
    ensures ValidateAmount(s) == if GoodAmount(Trim(s)) then Ok(Trim(s)) else Err(InvalidAmount)
    ensures Trim(s) != "" ==> GoodMemo(Trim(s))
  {
    hide AmountPattern, Trim;
    TrimIsTrimmed(s);
  }

  // ---- The round trip ----------------------------------------------------------------------------

  /** The parameters the printer writes for a normal URI. */
  function ParamsOf(p: Parsed): seq<Form.Pair> {
    (if p.amount.Some? then [Form.Pair("amount", p.amount.value)] else [])
    + (if p.memo.Some? then [Form.Pair("memo", p.memo.value)] else [])
  }

  lemma ParamsReadBack(p: Parsed)
    requires Normal(p)
    ensures ParseParams(p.scheme, p.address, ParamsOf(p)) == Ok(p)
  {
    hide AmountPattern, Trim, GoodScheme, GoodAddress;
    GetsWritten(p);
    if p.amount.Some? { AmountValidates(p.amount.value); }
    if p.memo.Some? { TrimmedStays(p.memo.value); }
  }

  lemma GetsWritten(p: Parsed)
    ensures Form.Get(ParamsOf(p), "amount") == p.amount
    ensures Form.Get(ParamsOf(p), "memo") == p.memo
    ensures Form.Get(ParamsOf(p), "message") == None
  {
    assert "amount" != "memo" && "memo" != "message" && "amount" != "message" by {
      assert |"amount"| == 6 && |"memo"| == 4 && |"message"| == 7;
    }
    var params := ParamsOf(p);
    if p.amount.Some? && p.memo.Some? {
      assert params == [Form.Pair("amount", p.amount.value), Form.Pair("memo", p.memo.value)];
      var rest := params[1..];
      assert rest == [Form.Pair("memo", p.memo.value)] && rest[1..] == [];
      assert Form.Get(rest, "message") == Form.Get(rest[1..], "message") == None;
    } else if p.amount.Some? {
      assert params == [Form.Pair("amount", p.amount.value)];
      assert params[1..] == [];
    } else if p.memo.Some? {
      assert params == [Form.Pair("memo", p.memo.value)];
      assert params[1..] == [];
    }
  }

  /** A query without parameters reads as no query at all. */
  lemma PayloadReads(scheme: string, address: string, params: seq<Form.Pair>)
    requires GoodAddress(address)
    ensures var query := Form.Serialize(params);
            var payload := if query == "" then address else address + "?" + query;
            && ParsePayload(scheme, payload) == ParseParams(scheme, address, params)
            && payload != "" && !IsSpace(payload[|payload| - 1])
  {
    hide Form.Serialize, Form.Parse, ValidateAddress, AmountPattern, Trim;
    var query := Form.Serialize(params);
    Form.FormRoundTrip(params);
    AddressValidates(address);
    assert forall i | 0 <= i < |address| :: AddressChar(address[i]) && address[i] != '?';
    IndexIsFirst(address, '?', query);
    if query == "" {
      assert params == [];
      assert address[..|address|] == address;
    } else {
      var payload := address + "?" + query;
      assert payload[..|address|] == address && payload[|address| + 1..] == query;
      assert payload[|payload| - 1] == query[|query| - 1];
    }
  }

  lemma UriReads(scheme: string, address: string, params: seq<Form.Pair>)
    requires GoodScheme(scheme) && GoodAddress(address)
    ensures Parse(Uri(scheme, address, params)) == ParseParams(scheme, address, params)
  {
    hide Form.Serialize, ParsePayload, ParseParams, ValidateScheme, AmountPattern, Trim, GoodAddress;
    var query := Form.Serialize(params);
    var payload := if query == "" then address else address + "?" + query;
    var uri := Uri(scheme, address, params);
    assert uri == scheme + ":" + payload;
    PayloadReads(scheme, address, params);
    SchemeValidates(scheme);
    assert forall i | 0 <= i < |scheme| :: SchemeChar(scheme[i]) && scheme[i] != ':';
    assert SchemeStart(scheme[0]) && uri[0] == scheme[0];
    assert uri[|uri| - 1] == payload[|payload| - 1];
    TrimmedStays(uri);
    IndexIsFirst(scheme, ':', payload);
    assert uri[..|scheme|] == scheme && uri[|scheme| + 1..] == payload;
  }

  lemma UriReadsBack(p: Parsed)
    requires Normal(p)
    ensures Parse(Uri(p.scheme, p.address, ParamsOf(p))) == Ok(p)
  {
    hide Parse, Uri, ParseParams, AmountPattern, Trim, ParamsOf, GoodAmount, GoodMemo, GoodAddress, GoodScheme;
    UriReads(p.scheme, p.address, ParamsOf(p));
    ParamsReadBack(p);
  }

  // ---- What each parameter of a URI means --------------------------------------------------------

  /** The first parameter of a name. */
  ghost predicate FirstNamed(params: seq<Form.Pair>, name: string, i: nat) {
    i < |params| && params[i].name == name && forall j | 0 <= j < i :: params[j].name != name
  }

  ghost predicate Absent(params: seq<Form.Pair>, name: string) {
    forall j | 0 <= j < |params| :: params[j].name != name
  }

  lemma {:induction false} GetIsFirst(params: seq<Form.Pair>, name: string)
    ensures Form.Get(params, name).None? <==> Absent(params, name)
    ensures forall i: nat | FirstNamed(params, name, i) :: Form.Get(params, name) == Some(params[i].value)
  {
    if params != [] && params[0].name != name {
      GetIsFirst(params[1..], name);
      forall i: nat | FirstNamed(params, name, i) ensures Form.Get(params, name) == Some(params[i].value) {
        assert FirstNamed(params[1..], name, i - 1);
      }
      if Absent(params[1..], name) {
        forall j | 0 <= j < |params| ensures params[j].name != name {
          if j > 0 { assert params[1..][j - 1] == params[j]; }
        }
      }
    }
  }

  /** A memo text as it is reported. */
  function Reported(text: string): Option<string> {
    if Trim(text) == "" then None else Some(Trim(text))
  }

  /** The parts parsing reads off a list of parameters: the first amount, which must be
      valid; as memo the first `memo`, or else the first `message`, trimmed. */
  ghost predicate ReadsAs(scheme: string, address: string, params: seq<Form.Pair>, result: Result<Parsed>) {
    && (Absent(params, "amount") ==> result.Ok? && result.value.amount == None)
    && (forall i: nat | FirstNamed(params, "amount", i) ::
          if GoodAmount(Trim(params[i].value)) then result.Ok? && result.value.amount == Some(Trim(params[i].value))
          else result == Err(InvalidAmount))
    && (result.Ok? ==>
          && result.value.scheme == scheme && result.value.address == address
          && (forall i: nat | FirstNamed(params, "memo", i) :: result.value.memo == Reported(params[i].value))
          && (forall i: nat | Absent(params, "memo") && FirstNamed(params, "message", i) ::
                result.value.memo == Reported(params[i].value))
          && (Absent(params, "memo") && Absent(params, "message") ==> result.value.memo == None))
  }

  lemma {:induction false} ParametersRead(scheme: string, address: string, params: seq<Form.Pair>)
    requires GoodScheme(scheme) && GoodAddress(address)
    ensures ReadsAs(scheme, address, params, Parse(Uri(scheme, address, params)))
  {
    hide Parse, Uri, AmountPattern, Trim, GoodAddress, GoodScheme, GoodAmount, ValidateAmount, Form.Get;
    UriReads(scheme, address, params);
    GetIsFirst(params, "amount");
    GetIsFirst(params, "memo");
    GetIsFirst(params, "message");
    if Form.Get(params, "amount").Some? {
      ValidatedIsGood(Form.Get(params, "amount").value);
    }
  }

  /** A message alone serves as the memo; beside a memo, in either order, it does not. */
  lemma {:induction false} MessageIsSecondBest(scheme: string, address: string, memo: string, message: string)
    requires GoodScheme(scheme) && GoodAddress(address)
    ensures Parse(Uri(scheme, address, [Form.Pair("message", message)])) ==
              Ok(Parsed(scheme, address, None, Reported(message)))
    ensures Parse(Uri(scheme, address, [Form.Pair("memo", memo), Form.Pair("message", message)])) ==
              Ok(Parsed(scheme, address, None, Reported(memo)))
    ensures Parse(Uri(scheme, address, [Form.Pair("message", message), Form.Pair("memo", memo)])) ==
              Ok(Parsed(scheme, address, None, Reported(memo)))
  {
    hide Parse, Uri, GoodAddress, GoodScheme, Reported, Trim;
    assert "amount" != "memo" && "memo" != "message" && "amount" != "message" by {
      assert |"amount"| == 6 && |"memo"| == 4 && |"message"| == 7;
    }
    var only, after, before := [Form.Pair("message", message)],
      [Form.Pair("memo", memo), Form.Pair("message", message)], [Form.Pair("message", message), Form.Pair("memo", memo)];
    ParametersRead(scheme, address, only);
    ParametersRead(scheme, address, after);
    ParametersRead(scheme, address, before);
    assert FirstNamed(only, "message", 0) && FirstNamed(after, "memo", 0) && FirstNamed(before, "memo", 1);
  }

  /** A payload that is not empty, taken apart before its first '?'. */
  predicate SplitsAtQuery(address: string, query: string) {
    address + query != "" && '?' !in address && (query == "" || query[0] == '?')
  }

  /** Which error a text gets that is no URI: without a colon after something, without
      a valid scheme, with nothing after it, without a valid address. */
  lemma {:induction false} ParseRefuses(uri: string, scheme: string, address: string, query: string)
    ensures ':' !in Trim(uri) || Trim(uri)[0] == ':' ==> Parse(uri) == Err(InvalidUri)
    ensures Trim(uri) == scheme + ":" + address + query && scheme != "" && ':' !in scheme ==>
              && (!GoodScheme(ToLower(Trim(scheme))) ==> Parse(uri) == Err(InvalidScheme))
              && (GoodScheme(ToLower(Trim(scheme))) && address + query == "" ==> Parse(uri) == Err(InvalidUri))
              && (GoodScheme(ToLower(Trim(scheme))) && SplitsAtQuery(address, query) && !GoodAddress(Trim(address)) ==>
                    Parse(uri) == Err(InvalidAddress))
  {
    hide Trim, GoodScheme, GoodAddress, ParseParams, ValidateScheme, ValidateAddress, Form.Parse;
    var text := Trim(uri);
    if text == scheme + ":" + address + query && scheme != "" && ':' !in scheme {
      var payload := address + query;
      assert text == scheme + [':'] + payload;
      IndexIsFirst(scheme, ':', payload);
      assert text[..|scheme|] == scheme && text[|scheme| + 1..] == payload;
      ValidatedIsGood(scheme);
      ValidatedIsGood(address);
      if '?' !in address && query != "" && query[0] == '?' {
        assert payload == address + ['?'] + query[1..];
        IndexIsFirst(address, '?', query[1..]);
        assert payload[..|address|] == address;
      } else if '?' !in address && query == "" {
        assert payload == address;
        IndexIsFirst(address, '?', "");
        assert payload[..|address|] == address;
      }
    }
  }

  // ---- What the validators take ---------------------------------------------------------------------

  /** White space by code point, as ECMAScript lists it. */
  lemma WhiteSpaceIs(c: char)
    ensures IsSpace(c) <==>
              c as int in {9, 10, 11, 12, 13, 32, 160, 5760, 8192, 8193, 8194, 8195, 8196, 8197, 8198, 8199, 8200, 8201,
                           8202, 8232, 8233, 8239, 8287, 12288, 65279}
  {
  }

  /** The letters that have a lower case here, and the scheme of an input without one. */
  lemma LowerCaseIs(c: char)
    ensures LowerChar(c) ==
              if 'A' <= c <= 'Z' then "abcdefghijklmnopqrstuvwxyz"[c as int - 'A' as int]
              else if c == '\U{212A}' then 'k' else c
  {
  }

  lemma DefaultScheme(address: string, amount: Option<string>, memo: Option<string>)
    ensures Generate(Input(address, amount, memo, None)) == Generate(Input(address, amount, memo, Some("bitcoin")))
  {
    hide ValidateScheme, ValidateAddress, ValidateAmount, Uri;
  }

  /** A scheme is a lower-case letter, then letters, digits, plus, point or minus; an
      address is anything without white space, question mark or number sign. */
  lemma PatternsTake(s: string)
    ensures GoodScheme(s) <==>
              s != "" && 'a' <= s[0] <= 'z'
              && forall i | 0 <= i < |s| :: 'a' <= s[i] <= 'z' || '0' <= s[i] <= '9' || s[i] in ['+', '.', '-']
    ensures GoodAddress(s) <==> s != "" && forall i | 0 <= i < |s| :: !IsSpace(s[i]) && s[i] !in ['?', '#']
  {
    hide IsSpace;
    if GoodAddress(s) {
      forall i | 0 <= i < |s| ensures !IsSpace(s[i]) && s[i] !in ['?', '#'] {
        assert AddressChar(s[i]);
      }
    }
    if GoodScheme(s) {
      forall i | 0 <= i < |s| ensures 'a' <= s[i] <= 'z' || '0' <= s[i] <= '9' || s[i] in ['+', '.', '-'] {
        assert SchemeChar(s[i]);
        assert ['+', '.', '-'][0] == '+' && ['+', '.', '-'][1] == '.' && ['+', '.', '-'][2] == '-';
      }
    }
  }

  predicate AllSpace(s: string) {
    forall i | 0 <= i < |s| :: IsSpace(s[i])
  }

  /** Trimming takes white space off the ends and nothing else. */
  lemma {:induction false} TrimDropsOnlySpace(s: string) returns (front: string, back: string)
    ensures s == front + Trim(s) + back && AllSpace(front) && AllSpace(back) && Trimmed(Trim(s))
  {
    TrimIsTrimmed(s);
    front := StartDropped(s);
    back := EndDropped(TrimStart(s));
  }

  lemma {:induction false} StartDropped(s: string) returns (front: string)
    ensures s == front + TrimStart(s) && AllSpace(front)
  {
    front := "";
    if s != "" && IsSpace(s[0]) {
      var more := StartDropped(s[1..]);
      front := [s[0]] + more;
    }
  }

  lemma {:induction false} EndDropped(s: string) returns (back: string)
    ensures s == TrimEnd(s) + back && AllSpace(back)
  {
    back := "";
    if s != "" && IsSpace(s[|s| - 1]) {
      var more := EndDropped(s[..|s| - 1]);
      back := more + [s[|s| - 1]];
    }
  }

  /** A number as it is usually written: whole part, then a point and decimals if any. */
  function Written(whole: nat, decimals: string): string {
    DecimalNat(whole) + if decimals == "" then "" else "." + decimals
  }

  lemma {:induction false} WholeIsDecimal(s: string)
    requires WholePart(s)
    ensures DecimalNat(ValueOf(s)) == s
    ensures s[0] != '0' ==> ValueOf(s) > 0
  {
    var t, c := s[..|s| - 1], s[|s| - 1];
    assert s == t + [c] && '0' <= c <= '9';
    DigitReadsBack(DigitValue(c));
    if t == "" {
      assert ValueOf(s) == DigitValue(c);
    } else {
      WholeIsDecimal(t);
      assert t[0] == s[0] != '0';
      assert ValueOf(s) / 10 == ValueOf(t) && ValueOf(s) % 10 == DigitValue(c);
    }
  }

  lemma {:induction false} DecimalIsWhole(n: nat)
    ensures WholePart(DecimalNat(n)) && (n > 0 ==> DecimalNat(n)[0] != '0')
  {
    DecimalNatReadsBack(n);
    if n >= 10 {
      DecimalIsWhole(n / 10);
    }
  }

  /** The amount pattern takes exactly the numbers so written. */
  lemma {:induction false} AmountsAreNumbers(s: string)
    ensures DecimalPattern(s) <==> exists whole: nat, decimals: string :: AllDigits(decimals) && s == Written(whole, decimals)
  {
    var i := IndexOf(s, '.');
    if DecimalPattern(s) {
      WholeIsDecimal(s[..i]);
      assert AllDigits(FractionOf(s)) && s == Written(ValueOf(s[..i]), FractionOf(s));
    }
    if whole: nat, decimals: string :| AllDigits(decimals) && s == Written(whole, decimals) {
      WrittenMatches(whole, decimals);
    }
  }

  lemma PointFound(front: string, decimals: string)
    requires forall k | 0 <= k < |front| :: front[k] != '.'
    ensures var text := front + if decimals == "" then "" else "." + decimals;
            var i := IndexOf(text, '.');
            text[..i] == front && FractionOf(text) == decimals && (i < |text| <==> decimals != "")
  {
    var text := front + if decimals == "" then "" else "." + decimals;
    IndexIsFirst(front, '.', decimals);
    if decimals == "" {
      assert text == front;
    } else {
      assert text == front + ['.'] + decimals;
      assert text[|front| + 1..] == decimals;
    }
  }

  lemma WrittenMatches(whole: nat, decimals: string)
    requires AllDigits(decimals)
    ensures DecimalPattern(Written(whole, decimals)) && FractionOf(Written(whole, decimals)) == decimals
    ensures Written(whole, decimals)[..IndexOf(Written(whole, decimals), '.')] == DecimalNat(whole)
  {
    hide DecimalNat, ValueOf, WholePart;
    var front := DecimalNat(whole);
    DecimalNatReadsBack(whole);
    DecimalIsWhole(whole);
    assert forall k | 0 <= k < |front| :: front[k] != '.';
    PointFound(front, decimals);
  }

  lemma {:induction false} PowersOfTen(n: nat)
    ensures Power(10, 3 * n) <= Power(2, 10 * n)
  {
    if n > 0 {
      PowersOfTen(n - 1);
      TenThree(3 * (n - 1));
      TwoTen(10 * (n - 1));
    }
  }

  lemma TenThree(n: nat)
    ensures Power(10, n + 3) == 1000 * Power(10, n)
  {
    assert Power(10, n + 2) == 10 * Power(10, n + 1);
  }

  lemma TwoTen(n: nat)
    ensures Power(2, n + 10) == 1024 * Power(2, n)
  {
    TwoFive(n);
    TwoFive(n + 5);
  }

  lemma TwoFive(n: nat)
    ensures Power(2, n + 5) == 32 * Power(2, n)
  {
    assert Power(2, n + 4) == 2 * Power(2, n + 3);
    assert Power(2, n + 3) == 2 * Power(2, n + 2);
    assert Power(2, n + 2) == 2 * Power(2, n + 1);
  }

  lemma {:induction false} PowerGrows(base: nat, m: nat, n: nat)
    requires base >= 1 && m <= n
    ensures 1 <= Power(base, m) <= Power(base, n)
    decreases n
  {
    if m < n {
      PowerGrows(base, m, n - 1);
      Scales(base, Power(base, n - 1));
    } else if n > 0 {
      PowerGrows(base, m - 1, n - 1);
      Scales(base, Power(base, n - 1));
    }
  }

  lemma Scales(base: nat, x: nat)
    requires base >= 1
    ensures base * x >= x
  {
  }

  /** Ten to any power up to 321 stays below the limit. */
  lemma BelowLimit(decimals: nat)
    requires decimals <= 321
    ensures 1 <= Power(10, decimals) < Power(2, 1075)
  {
    hide Power;
    var n: nat := 107;
    PowersOfTen(n);
    assert 3 * n == 321 && 10 * n == 1070;
    PowerGrows(10, decimals, 3 * n);
    PowerGrows(2, 10 * n, 10 * n);
    TwoFive(10 * n);
  }

  /** A number with up to 321 decimals is a valid amount exactly when it is not zero. */
  lemma {:induction false} AmountsArePositive(whole: nat, decimals: string)
    requires AllDigits(decimals) && |decimals| <= 321
    ensures AmountPattern(Written(whole, decimals)) <==> whole > 0 || ValueOf(decimals) > 0
  {
    hide Power;
    WrittenMatches(whole, decimals);
    ValueOfTwo(DecimalNat(whole), decimals);
    DecimalNatReadsBack(whole);
    BelowLimit(|decimals|);
    var v := ValueOf(DecimalNat(whole) + decimals);
    if v > 0 {
      Scales(v, Power(2, 1075));
    }
  }

  /** Appending digits: the value is zero exactly when both values are. */
  lemma {:induction false} ValueOfTwo(a: string, b: string)
    ensures ValueOf(a + b) > 0 <==> ValueOf(a) > 0 || ValueOf(b) > 0
  {
    if b == "" {
      assert a + b == a;
    } else {
      ValueOfTwo(a, b[..|b| - 1]);
      assert a + b == (a + b[..|b| - 1]) + [b[|b| - 1]];
      AppendDigit(a + b[..|b| - 1], b[|b| - 1]);
    }
  }

  /** The input with scheme, address, amount and memo normalised: trimmed, the
      scheme in lower case and defaulted, an empty memo left out. */
  function Normalised(input: Input): Parsed {
    Parsed(
      ToLower(Trim(if input.scheme.Some? then input.scheme.value else "bitcoin")),
      Trim(input.address),
      if input.amount.Some? then Some(Trim(input.amount.value)) else None,
      if input.memo.Some? && Trim(input.memo.value) != "" then Some(Trim(input.memo.value)) else None)
  }

  lemma GeneratedIsUri(input: Input)
    ensures var p := Normalised(input);
            if Normal(p) then Generate(input) == Ok(Uri(p.scheme, p.address, ParamsOf(p))) else Generate(input).Err?
  {
    hide Uri, AmountPattern, SchemePattern, Trim, ToLower;
    ValidatedIsGood(if input.scheme.Some? then input.scheme.value else "bitcoin");
    ValidatedIsGood(input.address);
    if input.amount.Some? { ValidatedIsGood(input.amount.value); }
    if input.memo.Some? { ValidatedIsGood(input.memo.value); }
    assert [] + MemoPairs(input.memo) == MemoPairs(input.memo);
  }

  /** The printer accepts exactly the inputs whose normalised parts are valid, and
      parsing what it wrote gives the normalised input back. */
  lemma {:induction false} PrintedUriParses(input: Input)
    ensures Generate(input).Ok? <==> Normal(Normalised(input))
    ensures Generate(input).Ok? ==> Parse(Generate(input).value) == Ok(Normalised(input))
  {
    hide *;
    GeneratedIsUri(input);
    if Normal(Normalised(input)) {
      UriReadsBack(Normalised(input));
    }
  }

  lemma MemoIsGood(params: seq<Form.Pair>)
    ensures MemoOf(params).Some? ==> GoodMemo(MemoOf(params).value)
  {
    hide Trim;
    var found := if Form.Get(params, "memo").Some? then Form.Get(params, "memo") else Form.Get(params, "message");
    if found.Some? { ValidatedIsGood(found.value); }
  }

  lemma PayloadIsNormal(scheme: string, payload: string)
    requires GoodScheme(scheme)
    ensures ParsePayload(scheme, payload).Ok? ==> Normal(ParsePayload(scheme, payload).value)
  {
    hide AmountPattern, SchemePattern, GoodAddress, Form.Parse, MemoOf, ValidateAmount, ValidateAddress;
    var i := IndexOf(payload, '?');
    ValidatedIsGood(payload[..i]);
    if i < |payload| {
      var params := Form.Parse(payload[i + 1..]);
      MemoIsGood(params);
      if Form.Get(params, "amount").Some? {
        ValidatedIsGood(Form.Get(params, "amount").value);
      }
    }
  }

  lemma {:induction false} ParsedIsNormal(uri: string)
    ensures Parse(uri).Ok? ==> Normal(Parse(uri).value)
  {
    hide ValidateScheme, ParsePayload, Normal, GoodScheme;
    var text := Trim(uri);
    var i := IndexOf(text, ':');
    if 0 < i < |text| {
      ValidatedIsGood(text[..i]);
      if ValidateScheme(text[..i]).Ok? {
        PayloadIsNormal(ValidateScheme(text[..i]).value, text[i + 1..]);
      }
    }
  }

  function AsInput(p: Parsed): Input {
    Input(p.address, p.amount, p.memo, Some(p.scheme))
  }

  /** Whatever URI the parser accepts, printing the result gives a URI that parses
      to the same result: the printed form is canonical. */
  lemma {:induction false} ParsedUriReprints(uri: string)
    ensures Parse(uri).Ok? ==>
              var p := Parse(uri).value;
              Generate(AsInput(p)).Ok? && Parse(Generate(AsInput(p)).value) == Ok(p)
  {
    hide Parse, AmountPattern, Uri, SchemePattern, Trim, GoodAddress;
    if Parse(uri).Ok? {
      var p := Parse(uri).value;
      ParsedIsNormal(uri);
      SchemeValidates(p.scheme);
      AddressValidates(p.address);
      if p.amount.Some? { AmountValidates(p.amount.value); }
      if p.memo.Some? { TrimmedStays(p.memo.value); }
      assert [] + MemoPairs(p.memo) == MemoPairs(p.memo);
      assert Generate(AsInput(p)) == Ok(Uri(p.scheme, p.address, ParamsOf(p)));
      UriReadsBack(p);
    }
  }
}
