/** The voice-command interpreter of src/utils/voiceParser.js: the rule-based
    `parseVoiceCommand` (free text to a name, a quantity and a unit) and the
    degrade-to-empty contract of `parseDeleteCommand`, whose language-model
    call is a foreign service and is given here as its reply. */
module VoiceParser {
  import opened Wrappers
  import opened Text

  /** `numberWords`, in the order `Object.entries` visits it. */
  const NumberWords: seq<(string, nat)> := [
    ("zero", 0), ("one", 1), ("two", 2), ("three", 3), ("four", 4), ("five", 5),
    ("six", 6), ("seven", 7), ("eight", 8), ("nine", 9), ("ten", 10),
    ("eleven", 11), ("twelve", 12), ("dozen", 12),
    ("ek", 1), ("do", 2), ("teen", 3), ("char", 4), ("chaar", 4), ("paanch", 5),
    ("che", 6), ("chay", 6), ("saat", 7), ("aath", 8), ("nau", 9), ("das", 10)
  ]

  /** `unitWords`, in the order the alternation lists them. */
  const UnitWords: seq<string> := [
    "kg", "kilo", "kilogram", "g", "gram", "l", "liter", "litre", "ml",
    "pack", "packs", "pcs", "piece", "pieces", "dozen", "dz"
  ]

  /** The helper words stripped from the name. */
  const HelperWords: seq<string> := [
    "add", "please", "plz", "karo", "kara", "kar", "inventory", "me", "main", "mein"
  ]

  const DefaultUnit: string := "pcs"
  const DefaultQuantity: nat := 1
  const DozenQuantity: nat := 12

  /** The record `parseVoiceCommand` returns. */
  datatype Command = Command(name: string, quantity: nat, unit: string)

  // ---------------------------------------------------------------------
  // Digit strings: `String(n)` and the value of a run of digits

  function DigitChar(d: nat): (c: char)
    requires d < 10
    ensures IsDigit(c) && c as int - '0' as int == d
  {
    ('0' as int + d) as char
  }

  /** `String(n)` for a natural number: its decimal digits. */
  function DecimalString(n: nat): (r: string)
    ensures r != [] && AllDigits(r)
  {
    if n < 10 then [DigitChar(n)] else DecimalString(n / 10) + [DigitChar(n % 10)]
  }

  /** The number a run of decimal digits denotes. */
  function DigitsValue(ds: string): nat
    requires AllDigits(ds)
  {
    if ds == [] then 0
    else 10 * DigitsValue(ds[..|ds| - 1]) + (ds[|ds| - 1] as int - '0' as int)
  }

  /** Reading back the digits `String(n)` writes gives `n`. */
  lemma {:induction false} DigitsValueOfDecimalString(n: nat)
    ensures DigitsValue(DecimalString(n)) == n
  {
    if n >= 10 {
      var ds := DecimalString(n);
      assert ds[..|ds| - 1] == DecimalString(n / 10);
      DigitsValueOfDecimalString(n / 10);
    }
  }

  /** The length of the longest prefix of digits. */
  function DigitRunLength(t: string): (n: nat)
    ensures n <= |t| && AllDigits(t[..n])
    ensures n == |t| || !IsDigit(t[n])
  {
    if t == [] || !IsDigit(t[0]) then 0
    else
      var m := DigitRunLength(t[1..]);
      assert t[..1 + m] == [t[0]] + t[1..][..m];
      1 + m
  }

  // ---------------------------------------------------------------------
  // Number words

  /** The value of the first table entry spelled `t`, if any. */
  function Lookup(table: seq<(string, nat)>, t: string): Option<nat>
  {
    if table == [] then None
    else match Lookup(table[..|table| - 1], t)
      case Some(n) => Some(n)
      case None => if table[|table| - 1].0 == t then Some(table[|table| - 1].1) else None
  }

  /** `Lookup` finds the first entry spelled `t`, and finds none exactly
      when no entry is spelled `t`. */
  lemma {:induction false} LookupFindsFirst(table: seq<(string, nat)>, t: string)
    ensures Lookup(table, t).None? <==> forall k :: 0 <= k < |table| ==> table[k].0 != t
    ensures Lookup(table, t).Some? ==>
              exists k :: 0 <= k < |table| && table[k] == (t, Lookup(table, t).value)
                          && forall j :: 0 <= j < k ==> table[j].0 != t
  {
    if table != [] {
      var init := table[..|table| - 1];
      LookupFindsFirst(init, t);
      assert forall k :: 0 <= k < |init| ==> init[k] == table[k];
      if Lookup(init, t).Some? {
        var k :| 0 <= k < |init| && init[k] == (t, Lookup(init, t).value)
                 && forall j :: 0 <= j < k ==> init[j].0 != t;
        assert table[k] == (t, Lookup(table, t).value);
      }
    }
  }

  /** The token once the entries of `table` have been replaced. */
  function Substitute(table: seq<(string, nat)>, t: string): string
  {
    match Lookup(table, t)
    case Some(n) => DecimalString(n)
    case None => t
  }

  /** A token after the whole number-word loop. */
  function NumberWordToken(t: string): string
  {
    Substitute(NumberWords, t)
  }

  /** One `text.replace(new RegExp(`\\b${w}\\b`, 'g'), d)` on the token
      view of the text. */
  function ReplaceWord(ts: seq<string>, w: string, d: string): (r: seq<string>)
  {
    seq(|ts|, i requires 0 <= i < |ts| => if ts[i] == w then d else ts[i])
  }

  /** Every number word begins with a letter, so no digit string that an
      earlier replacement wrote is ever taken for a later number word. */
  lemma NumberWordsAreWords()
    ensures forall k :: 0 <= k < |NumberWords| ==> NumberWords[k].0 != [] && !IsDigit(NumberWords[k].0[0])
  {
  }

  /** One more table entry replaces the token exactly when the text so far
      spells that entry's word: a digit string written by an earlier entry
      never spells a later one. */
  lemma SubstituteStep(table: seq<(string, nat)>, k: nat, t: string)
    requires k < |table|
    requires table[k].0 != [] && !IsDigit(table[k].0[0])
    ensures var b := Substitute(table[..k], t);
            Substitute(table[..k + 1], t) == if b == table[k].0 then DecimalString(table[k].1) else b
  {
    assert table[..k + 1][..k] == table[..k];
    match Lookup(table[..k], t)
    case Some(m) =>
      var dm := DecimalString(m);
      assert IsDigit(dm[0]);
    case None =>
  }

  /** The number-word loop: one global replacement per table entry, in
      table order, each rewriting the text the previous one produced. */
  method ReplaceNumberWords(ts: seq<string>) returns (out: seq<string>)
    ensures |out| == |ts|
    ensures forall j :: 0 <= j < |ts| ==> out[j] == NumberWordToken(ts[j])
  {
    NumberWordsAreWords();
    out := ts;
    for k := 0 to |NumberWords|
      invariant |out| == |ts|
      invariant forall j :: 0 <= j < |ts| ==> out[j] == Substitute(NumberWords[..k], ts[j])
    {
      var (w, n) := NumberWords[k];
      var d := DecimalString(n);
      out := ReplaceWord(out, w, d);
      forall j | 0 <= j < |ts|
        ensures out[j] == Substitute(NumberWords[..k + 1], ts[j])
      {
        SubstituteStep(NumberWords, k, ts[j]);
      }
    }
    assert NumberWords[..|NumberWords|] == NumberWords;
  }

  // ---------------------------------------------------------------------
  // The pieces of `parseVoiceCommand`

  /** The tokens of the command after lower-casing, whitespace collapsing
      and number-word replacement. */
  function Tokens(raw: string): (ts: seq<string>)
  {
    var ws := Words(Lower(raw));
    seq(|ws|, j requires 0 <= j < |ws| => NumberWordToken(ws[j]))
  }

  predicate StartsWithDigit(t: string)
  {
    t != [] && IsDigit(t[0])
  }

  /** `/(?:^|\s)(\d+(?:\.\d+)?)/`: the digits leading the first token that
      starts with a digit. */
  function FirstNumber(ts: seq<string>): Option<nat>
  {
    if ts == [] then None
    else if StartsWithDigit(ts[0]) then
      var t := ts[0];
      Some(DigitsValue(t[..DigitRunLength(t)]))
    else FirstNumber(ts[1..])
  }

  /** The quantity: the first number, else 12 when `dozen` or `dz` is a
      token, else 1. */
  function QuantityOf(ts: seq<string>): nat
  {
    match FirstNumber(ts)
    case Some(n) => n
    case None => if "dozen" in ts || "dz" in ts then DozenQuantity else DefaultQuantity
  }

  /** The tokens of `ts`, in order, without those `drop` holds of. */
  function Without(ts: seq<string>, drop: string -> bool): (r: seq<string>)
    ensures |r| <= |ts|
    ensures forall k :: 0 <= k < |r| ==> r[k] in ts && !drop(r[k])
    ensures forall k :: 0 <= k < |ts| && !drop(ts[k]) ==> ts[k] in r
  {
    if ts == [] then []
    else
      var rest := Without(ts[1..], drop);
      assert forall k :: 1 <= k < |ts| ==> ts[k] == ts[1..][k - 1];
      (if drop(ts[0]) then [] else [ts[0]]) + rest
  }

  /** Stripping a concatenation strips each part in place, so the order
      of the kept tokens is the order of the text. */
  lemma {:induction false} WithoutAppend(xs: seq<string>, ys: seq<string>, drop: string -> bool)
    ensures Without(xs + ys, drop) == Without(xs, drop) + Without(ys, drop)
  {
    if xs != [] {
      assert (xs + ys)[0] == xs[0];
      assert (xs + ys)[1..] == xs[1..] + ys;
      WithoutAppend(xs[1..], ys, drop);
    } else {
      assert xs + ys == ys;
    }
  }

  /** Nothing is left of nothing, and one token is kept exactly when it is
      not dropped. */
  lemma WithoutUnits(t: string, drop: string -> bool)
    ensures Without([], drop) == []
    ensures Without([t], drop) == if drop(t) then [] else [t]
  {
  }

  predicate IsHelper(t: string) { t in HelperWords }
  predicate IsNumeral(t: string) { t != [] && AllDigits(t) }
  predicate IsUnit(t: string) { t in UnitWords }

  /** The three `replace` calls that strip helper words, numbers and unit
      words from the text. */
  function NameTokens(ts: seq<string>): (name: seq<string>)
  {
    Without(Without(Without(ts, IsHelper), IsNumeral), IsUnit)
  }

  /** The name: what is left, re-joined by single spaces, or `raw.trim()`
      when nothing is left. */
  function NameOf(raw: string, ts: seq<string>): (name: string)
  {
    var name := Join(NameTokens(ts));
    if name == [] then Trim(raw) else name
  }

  /** The first unit word of the text, else `pcs`. */
  function UnitOf(ts: seq<string>): string
  {
    if ts == [] then DefaultUnit
    else if ts[0] in UnitWords then ts[0]
    else UnitOf(ts[1..])
  }

  /** `parseVoiceCommand(raw)`: `None` for the empty string, which is the
      only falsy string. */
  function Parse(raw: string): Option<Command>
  {
    if raw == [] then None
    else
      var ts := Tokens(raw);
      Some(Command(NameOf(raw, ts), QuantityOf(ts), UnitOf(ts)))
  }

  /** The parser as the source runs it: the number-word loop rewrites the
      normalised text, then the quantity, name and unit are read off it. */
  method ParseVoiceCommand(raw: string) returns (r: Option<Command>)
    ensures r == Parse(raw)
    ensures r.None? <==> raw == []
  {
    if raw == [] {
      return None;
    }
    var text := Words(Lower(raw));
    text := ReplaceNumberWords(text);
    assert text == Tokens(raw);
    var quantity := QuantityOf(text);
    var name := Join(NameTokens(text));
    if name == [] {
      name := Trim(raw);
    }
    var unit := UnitOf(text);
    r := Some(Command(name, quantity, unit));
  }

  // ---------------------------------------------------------------------
  // What the parser promises

  lemma TokensAreWords(raw: string)
    ensures AllWords(Tokens(raw))
  {
    var ws := Words(Lower(raw));
    forall j | 0 <= j < |ws| ensures IsWord(NumberWordToken(ws[j])) {
      if Lookup(NumberWords, ws[j]).Some? {
        var d := NumberWordToken(ws[j]);
        assert forall i :: 0 <= i < |d| ==> IsDigit(d[i]);
      }
    }
  }

  /** No `dozen` token survives the number-word loop: `dozen` reaches the
      quantity as the number 12, is never taken for a unit, and its entries
      in `unitWords` and in the `dozen|dz` test can never match. */
  lemma DozenIsReplaced(raw: string)
    ensures "dozen" !in Tokens(raw)
  {
    var ts := Tokens(raw);
    var ws := Words(Lower(raw));
    forall j | 0 <= j < |ts| ensures ts[j] != "dozen" {
      assert ts[j] == NumberWordToken(ws[j]);
      match Lookup(NumberWords, ws[j])
      case Some(n) =>
        var d := DecimalString(n);
        assert IsDigit(d[0]) && !IsDigit("dozen"[0]);
      case None =>
        LookupFindsFirst(NumberWords, ws[j]);
        assert NumberWords[13].0 == "dozen";
    }
  }

  /** A number word's token becomes a run of digits that denotes the
      word's value. */
  lemma NumberWordBecomesItsValue(raw: string, j: nat, n: nat)
    requires j < |Words(Lower(raw))|
    requires Lookup(NumberWords, Words(Lower(raw))[j]) == Some(n)
    ensures StartsWithDigit(Tokens(raw)[j])
    ensures DigitRunLength(Tokens(raw)[j]) == |Tokens(raw)[j]|
    ensures DigitsValue(Tokens(raw)[j]) == n
  {
    var t := Tokens(raw)[j];
    assert t == DecimalString(n);
    DigitsValueOfDecimalString(n);
  }

  /** Once a prefix of the table has an entry spelled `t`, the rest of the
      table does not change what `Lookup` finds. */
  lemma {:induction false} LookupStable(table: seq<(string, nat)>, k: nat, t: string)
    requires k <= |table|
    requires Lookup(table[..k], t).Some?
    ensures Lookup(table, t) == Lookup(table[..k], t)
    decreases |table| - k
  {
    if k < |table| {
      assert table[..k + 1][..k] == table[..k];
      LookupStable(table, k + 1, t);
    } else {
      assert table[..k] == table;
    }
  }

  /** The value of the entry at index `k` when no earlier entry has its
      spelling. */
  lemma EntryValue(k: nat)
    requires k < |NumberWords|
    requires forall j :: 0 <= j < k ==> NumberWords[j].0 != NumberWords[k].0
    ensures Lookup(NumberWords, NumberWords[k].0) == Some(NumberWords[k].1)
  {
    var w := NumberWords[k].0;
    LookupFindsFirst(NumberWords[..k], w);
    assert NumberWords[..k + 1][..k] == NumberWords[..k];
    LookupStable(NumberWords, k + 1, w);
  }

  /** The table gives `dozen` the value 12 and the Urdu `do` the value 2. */
  lemma DozenAndDoValues()
    ensures Lookup(NumberWords, "dozen") == Some(12)
    ensures Lookup(NumberWords, "do") == Some(2)
  {
    EntryValue(13);
    EntryValue(15);
  }

  /** `FirstNumber` reads the first token that starts with a digit, and
      gives nothing exactly when no token does. */
  lemma {:induction false} FirstNumberIsFirst(ts: seq<string>)
    ensures FirstNumber(ts).None? <==> forall k :: 0 <= k < |ts| ==> !StartsWithDigit(ts[k])
    ensures FirstNumber(ts).Some? ==>
              exists k :: 0 <= k < |ts| && StartsWithDigit(ts[k])
                          && (forall j :: 0 <= j < k ==> !StartsWithDigit(ts[j]))
                          && FirstNumber(ts).value == DigitsValue(ts[k][..DigitRunLength(ts[k])])
  {
    if ts != [] && !StartsWithDigit(ts[0]) {
      FirstNumberIsFirst(ts[1..]);
      assert forall k :: 1 <= k < |ts| ==> ts[k] == ts[1..][k - 1];
      if FirstNumber(ts[1..]).Some? {
        var k :| 0 <= k < |ts[1..]| && StartsWithDigit(ts[1..][k])
                 && (forall j :: 0 <= j < k ==> !StartsWithDigit(ts[1..][j]))
                 && FirstNumber(ts[1..]).value == DigitsValue(ts[1..][k][..DigitRunLength(ts[1..][k])]);
        assert StartsWithDigit(ts[k + 1]);
      }
    }
  }

  /** The quantity is the first number of the text; with none, it is 12
      when `dz` (or `dozen`) is a token and 1 otherwise. */
  lemma QuantityRule(raw: string)
    requires raw != []
    ensures var ts := Tokens(raw);
            var q := Parse(raw).value.quantity;
            && ((exists k :: 0 <= k < |ts| && StartsWithDigit(ts[k])) ==>
                  exists k :: 0 <= k < |ts| && StartsWithDigit(ts[k])
                              && (forall j :: 0 <= j < k ==> !StartsWithDigit(ts[j]))
                              && q == DigitsValue(ts[k][..DigitRunLength(ts[k])]))
            && ((forall k :: 0 <= k < |ts| ==> !StartsWithDigit(ts[k])) ==>
                  q == if "dz" in ts then 12 else 1)
  {
    FirstNumberIsFirst(Tokens(raw));
    DozenIsReplaced(raw);
  }

  /** A number word that comes before every token starting with a digit
      sets the quantity to its value; this is how `dozen eggs` gets 12. */
  lemma {:induction false} NumberWordQuantity(raw: string, j: nat, n: nat)
    requires raw != []
    requires j < |Words(Lower(raw))|
    requires Lookup(NumberWords, Words(Lower(raw))[j]) == Some(n)
    requires forall i :: 0 <= i < j ==> !StartsWithDigit(Tokens(raw)[i])
    ensures Parse(raw).value.quantity == n
  {
    var ts := Tokens(raw);
    NumberWordBecomesItsValue(raw, j, n);
    FirstNumberIsFirst(ts);
    var m :| 0 <= m < |ts| && StartsWithDigit(ts[m])
             && (forall i :: 0 <= i < m ==> !StartsWithDigit(ts[i]))
             && FirstNumber(ts).value == DigitsValue(ts[m][..DigitRunLength(ts[m])]);
    assert m == j;
    assert ts[j][..|ts[j]|] == ts[j];
  }

  /** The unit is the first unit word of the text, or `pcs` when there is
      none; either way it is one of `unitWords`. */
  lemma {:induction false} UnitIsFirstUnitWord(ts: seq<string>)
    ensures UnitOf(ts) in UnitWords
    ensures (forall k :: 0 <= k < |ts| ==> ts[k] !in UnitWords) ==> UnitOf(ts) == DefaultUnit
    ensures (exists k :: 0 <= k < |ts| && ts[k] in UnitWords) ==>
              exists k :: 0 <= k < |ts| && ts[k] == UnitOf(ts)
                          && forall j :: 0 <= j < k ==> ts[j] !in UnitWords
  {
    if ts != [] && ts[0] !in UnitWords {
      UnitIsFirstUnitWord(ts[1..]);
      assert forall k :: 1 <= k < |ts| ==> ts[k] == ts[1..][k - 1];
      if exists k :: 0 <= k < |ts| && ts[k] in UnitWords {
        var k :| 0 <= k < |ts[1..]| && ts[1..][k] == UnitOf(ts[1..])
                 && forall j :: 0 <= j < k ==> ts[1..][j] !in UnitWords;
        assert ts[k + 1] == UnitOf(ts);
      }
    } else if ts == [] {
      assert DefaultUnit == UnitWords[11];
    }
  }

  /** The parsed name is empty exactly when the command is all whitespace
      (the fallback `raw.trim()` is then empty too); for every other
      command it is non-empty. */
  lemma NameEmptyIff(raw: string)
    requires raw != []
    ensures Parse(raw).value.name == [] <==> AllSpace(raw)
  {
    var ts := Tokens(raw);
    TokensAreWords(raw);
    var kept := NameTokens(ts);
    assert AllWords(kept);
    JoinEmptyIff(kept);
    TrimProperties(raw);
    LowerProperties(raw);
    WordsEmptyIff(Lower(raw));
    if AllSpace(raw) {
      assert ts == [];
    }
  }

  /** When the name does not fall back to the raw text, it is made of
      exactly the tokens that survive the three strips: lower-case, none a
      helper word, a number or a unit word, joined by single spaces. */
  lemma NameIsStrippedText(raw: string)
    requires raw != []
    requires NameTokens(Tokens(raw)) != []
    ensures var name := Parse(raw).value.name;
            && Words(name) == NameTokens(Tokens(raw))
            && forall k :: 0 <= k < |Words(name)| ==>
                 var t := Words(name)[k];
                 t in Tokens(raw) && !IsHelper(t) && !IsNumeral(t) && !IsUnit(t)
  {
    var ts := Tokens(raw);
    TokensAreWords(raw);
    var kept := NameTokens(ts);
    assert AllWords(kept);
    JoinEmptyIff(kept);
    WordsOfJoin(kept);
  }

  // ---------------------------------------------------------------------
  // parseDeleteCommand

  /** One removal intent, as the language model returns it. */
  datatype Intent = Intent(name: string, qty: int)

  /** The message content the language model replies with: a JSON list of
      intents, or text that `JSON.parse` rejects. */
  datatype ProviderContent = Json(items: seq<Intent>) | NotJson

  /** `parseDeleteCommand` after the provider has replied: the parsed list,
      or the empty list when the reply is not JSON. */
  function ParseDeleteCommand(content: ProviderContent): (r: seq<Intent>)
    ensures content.NotJson? ==> r == []
    ensures content.Json? ==> r == content.items
  {
    match content
    case Json(items) => items
    case NotJson => []
  }
}
