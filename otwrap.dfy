/** `OTWrap::Imp`: the facade between the dialogs and the wallet library.
    Every library call is an argument: the rows of the blockchain-selection
    model, what `AccountList`, `NewHDSubaccount`, `NewSeed`, `ImportSeed`,
    `Words` and `Wallet().Nym` return, the configuration section of the
    application, and whether `Set_str` and `Save` succeed. */
module OTWrap {
  import opened Common
  import opened Ordering
  import opened PairTransform
  import opened SeedTypeModel
  import opened Chains
  import opened Rows
  import opened Words

  /** Configuration keys, in the application's section (`metier`). */
  const SeedIdKey: string := "seedid"
  const NymIdKey: string := "nymid"

  /** `Check_str`: the stored value, empty when the key is absent. */
  function Configured(config: map<string, string>, key: string): (v: string) {
    if key in config then config[key] else ""
  }

  /** The outcome of resolving the seed or nym identifier. */
  datatype Resolution = Resolution(ok: bool, id: string)

  /** `validateSeed` / `validateNym`: keep an identifier already held, else
      adopt the configured one, else adopt the only candidate once it has
      been stored and saved, else fail and stay empty. */
  function Resolve(current: string, configured: string, candidates: seq<string>, setOk: bool, saveOk: bool): (r: Resolution)
    ensures current != "" ==> r == Resolution(true, current)
    ensures current == "" && configured != "" ==> r == Resolution(true, configured)
    ensures current == "" && configured == "" ==> (r.ok <==> |candidates| == 1 && setOk && saveOk)
    ensures current == "" && configured == "" && r.ok ==> r.id == candidates[0]
    ensures !r.ok ==> r.id == ""
  {
    if current != "" then Resolution(true, current)
    else if configured != "" then Resolution(true, configured)
    else if |candidates| == 1 && setOk && saveOk then Resolution(true, candidates[0])
    else Resolution(false, "")
  }

  /** Once an identifier is held, resolving again keeps it, whatever the
      configuration and the library report. */
  lemma ResolveSettles(current: string, configured: string, candidates: seq<string>, setOk: bool, saveOk: bool,
                       configured': string, candidates': seq<string>, setOk': bool, saveOk': bool)
    requires Resolve(current, configured, candidates, setOk, saveOk).id != ""
    ensures var r := Resolve(current, configured, candidates, setOk, saveOk);
      Resolve(r.id, configured', candidates', setOk', saveOk') == r
  {
  }

  /** A resolution that succeeds without a held id writes exactly one
      source: the configured value when there is one, otherwise the single
      candidate; and a configured value always wins over the candidates. */
  lemma ResolveAdoptsOneSource(configured: string, candidates: seq<string>, setOk: bool, saveOk: bool)
    requires Resolve("", configured, candidates, setOk, saveOk).ok
    ensures var r := Resolve("", configured, candidates, setOk, saveOk);
      (configured != "" && r.id == configured)
      != (configured == "" && |candidates| == 1 && setOk && saveOk && r.id == candidates[0])
  {
  }

  /** `model::AccountActivity`: bound at construction to the activity of one
      account of one nym. */
  class AccountActivity {
    const nym: string
    const account: string

    constructor (nym: string, account: string)
      ensures this.nym == nym && this.account == account
    {
      this.nym := nym;
      this.account := account;
    }
  }

  /** `model::SeedLanguage`: the languages a seed style allows, as rows. */
  class SeedLanguage {
    const style: int
    const rows: seq<Entry>

    constructor (style: int, rows: seq<Entry>)
      ensures this.style == style && this.rows == rows
    {
      this.style := style;
      this.rows := rows;
    }
  }

  /** `model::SeedSize`: the strengths a seed style allows, as rows. */
  class SeedSize {
    const style: int
    const rows: seq<Entry>

    constructor (style: int, rows: seq<Entry>)
      ensures this.style == style && this.rows == rows
    {
      this.style := style;
      this.rows := rows;
    }
  }

  /** `validate::SeedWord`: the word validator for a style and a language. */
  class SeedWord {
    const style: int
    const language: int

    constructor (style: int, language: int)
      ensures this.style == style && this.language == language
    {
      this.style := style;
      this.language := language;
    }
  }

  /** The validators cached for one style. */
  function Inner(m: map<int, map<int, SeedWord>>, style: int): (inner: map<int, SeedWord>) {
    if style in m then m[style] else map[]
  }

  class Imp {
    var seedId: string
    var nymId: string
    const chains: EnabledChains
    const seedType: SeedType
    var accountActivity: map<string, AccountActivity>
    var seedLanguage: map<int, SeedLanguage>
    var seedSize: map<int, SeedSize>
    var seedValidators: map<int, map<int, SeedWord>>

    /** Each cached model is bound to the key it is filed under, and only
        keys inside the byte range are filed under a seed style or language. */
    ghost predicate Valid()
      reads this
    {
      && (forall id :: id in accountActivity ==> accountActivity[id].account == id)
      && (forall t :: t in seedLanguage ==> InByteRange(t) && seedLanguage[t].style == t)
      && (forall t :: t in seedSize ==> InByteRange(t) && seedSize[t].style == t)
      && (forall s :: s in seedValidators ==>
            && InByteRange(s)
            && forall l :: l in seedValidators[s] ==>
                 InByteRange(l) && seedValidators[s][l].style == s && seedValidators[s][l].language == l)
    }

    /** Starts with no seed and no nym, nothing enabled and nothing cached;
        the seed-type model lists `AllowedSeedTypes` through the transform. */
    constructor (seedTypes: seq<(int, string)>)
      ensures Valid()
      ensures seedId == "" && nymId == ""
      ensures fresh(chains) && chains.enabled == {}
      ensures seedType == NewSeedType(Transform(seedTypes))
      ensures accountActivity == map[] && seedLanguage == map[] && seedSize == map[] && seedValidators == map[]
    {
      seedId := "";
      nymId := "";
      chains := new EnabledChains();
      seedType := NewSeedType(Transform(seedTypes));
      accountActivity := map[];
      seedLanguage := map[];
      seedSize := map[];
      seedValidators := map[];
    }

    /** Different keys never share a cached model. */
    lemma EntriesDistinct()
      requires Valid()
      ensures forall a, b :: a in accountActivity && b in accountActivity && a != b ==> accountActivity[a] != accountActivity[b]
      ensures forall a, b :: a in seedLanguage && b in seedLanguage && a != b ==> seedLanguage[a] != seedLanguage[b]
      ensures forall a, b :: a in seedSize && b in seedSize && a != b ==> seedSize[a] != seedSize[b]
      ensures forall s, l, s', l' ::
        (s in seedValidators && l in seedValidators[s] && s' in seedValidators && l' in seedValidators[s']
         && (s, l) != (s', l')) ==> seedValidators[s][l] != seedValidators[s'][l']
    {
    }

    /** `scanBlockchains`: count the enabled rows, find the longest name and
        swap in the enabled types. */
    method ScanBlockchains(rows: seq<Row>) returns (enabled: nat, longest: nat)
      modifies chains
      ensures enabled == EnabledCount(Visited(rows))
      ensures longest == LongestName(Visited(rows))
      ensures chains.enabled == EnabledTypes(Visited(rows))
    {
      var types;
      enabled, longest, types := ScanRows(rows);
      chains.Set(types);
    }

    /** `validateBlockchains`: make sure every enabled chain has an account.
        An empty new subaccount id ends it at once with the chain set
        unchanged; otherwise the enabled types are swapped in and it succeeds
        exactly when some visited row is enabled. */
    method ValidateBlockchains(rows: seq<Row>, accounts: seq<nat>, created: seq<string>) returns (ok: bool)
      requires |accounts| == |rows| && |created| == |rows|
      modifies chains
      ensures var outcome := AccountTotal(rows, accounts, created, WalkEnd(rows, 0));
        && ok == (outcome.Some? && outcome.value > 0)
        && (outcome.None? ==> chains.enabled == old(chains.enabled))
        && (outcome.Some? ==> chains.enabled == EnabledTypes(Visited(rows)))
      ensures ok <==>
        && (forall k :: 0 <= k < WalkEnd(rows, 0) ==> !(rows[k].enabled && accounts[k] == 0 && created[k] == ""))
        && EnabledCount(Visited(rows)) > 0
    {
      var failed, total, types := WalkAccounts(rows, accounts, created);
      var n := WalkEnd(rows, 0);
      AccountTotalFails(rows, accounts, created, n);
      if failed {
        var k :| 0 <= k < n && rows[k].enabled && accounts[k] == 0 && created[k] == "";
        return false;
      }
      AccountTotalPositive(rows, accounts, created, n);
      assert Visited(rows) == rows[..n];
      chains.Set(types);
      ok := 0 < total;
    }

    /** `validateNym`. */
    method ValidateNym(config: map<string, string>, nyms: seq<string>, setOk: bool, saveOk: bool) returns (ok: bool)
      modifies this`nymId
      ensures Resolution(ok, nymId) == Resolve(old(nymId), Configured(config, NymIdKey), nyms, setOk, saveOk)
    {
      if nymId != "" { return true; }
      var id := Configured(config, NymIdKey);
      if id != "" {
        nymId := id;
        return true;
      }
      if |nyms| == 1 {
        id := nyms[0];
        if !setOk { return false; }
        if !saveOk { return false; }
        nymId := id;
        return true;
      }
      return false;
    }

    /** `validateSeed`. */
    method ValidateSeed(config: map<string, string>, seeds: seq<string>, setOk: bool, saveOk: bool) returns (ok: bool)
      modifies this`seedId
      ensures Resolution(ok, seedId) == Resolve(old(seedId), Configured(config, SeedIdKey), seeds, setOk, saveOk)
    {
      if seedId != "" { return true; }
      var id := Configured(config, SeedIdKey);
      if id != "" {
        seedId := id;
        return true;
      }
      if |seeds| == 1 {
        id := seeds[0];
        if !setOk { return false; }
        if !saveOk { return false; }
        seedId := id;
        return true;
      }
      return false;
    }

    /** `accountActivityModel`: the cached model for an account, created and
        bound to the current nym on the first request only. */
    method AccountActivityModel(id: string) returns (m: AccountActivity)
      requires Valid()
      modifies this`accountActivity
      ensures Valid()
      ensures m.account == id
      ensures id in old(accountActivity) ==> m == old(accountActivity[id]) && accountActivity == old(accountActivity)
      ensures id !in old(accountActivity) ==> fresh(m) && m.nym == nymId && accountActivity == old(accountActivity)[id := m]
    {
      if id in accountActivity {
        return accountActivity[id];
      }
      m := new AccountActivity(nymId, id);
      accountActivity := accountActivity[id := m];
    }

    /** `createNym` as the source has it: `success` is never set, so the
        scope guard releases the nym id on every path. */
    method CreateNymAsWritten(alias: string, makeNym: (string, string) -> Option<string>, setOk: bool, saveOk: bool)
      requires seedId != ""
      modifies this`nymId
      ensures nymId == ""
    {
      var success := false;
      var made := makeNym(alias, seedId);
      if made.Some? && setOk && saveOk {
        nymId := made.value;
      }
      if !success { nymId := ""; }
    }

    /** `createNym` with the guard disarmed after the last step: the nym id
        is the new nym's when every step succeeds and is released otherwise. */
    method CreateNym(alias: string, makeNym: (string, string) -> Option<string>, setOk: bool, saveOk: bool)
      requires seedId != ""
      modifies this`nymId
      ensures var made := makeNym(alias, seedId);
        nymId == if made.Some? && setOk && saveOk then made.value else ""
    {
      var success := false;
      var made := makeNym(alias, seedId);
      if made.Some? && setOk && saveOk {
        nymId := made.value;
        success := true;
      }
      if !success { nymId := ""; }
    }

    /** `createNewSeed`: style, language and strength must fit a byte; the
        new seed id is kept only when it is non-empty and has been stored and
        saved, and then the seed's words are returned. */
    method CreateNewSeed(style: int, lang: int, strength: int, newSeed: (int, int, int) -> string,
                         setOk: bool, saveOk: bool, words: string -> string) returns (list: seq<string>)
      requires seedId == ""
      modifies this`seedId
      ensures var done := InByteRange(style) && InByteRange(lang) && InByteRange(strength)
                          && newSeed(style, lang, strength) != "" && setOk && saveOk;
        && (done ==> seedId == newSeed(style, lang, strength) && list == SplitWords(words(seedId)))
        && (!done ==> seedId == "" && list == [])
      ensures forall i :: 0 <= i < |list| ==> IsWord(list[i])
    {
      var success := false;
      list := [];
      if InByteRange(style) && InByteRange(lang) && InByteRange(strength) {
        seedId := newSeed(Byte(style), Byte(lang), strength);
        if seedId != "" && setOk && saveOk {
          success := true;
          list := SplitWords(words(seedId));
          SplitWordsAreWords(words(seedId));
        }
      }
      if !success { seedId := ""; }
    }

    /** `importSeed`: style and language are narrowed to a byte without a
        range check; the imported id is kept only when it is non-empty and
        has been stored and saved. */
    method ImportSeed(style: int, lang: int, phrase: string, importSeed: (int, int, string) -> string,
                      setOk: bool, saveOk: bool)
      requires seedId == ""
      modifies this`seedId
      ensures var id := importSeed(Byte(style), Byte(lang), phrase);
        seedId == if id != "" && setOk && saveOk then id else ""
    {
      var success := false;
      seedId := importSeed(Byte(style), Byte(lang), phrase);
      if seedId != "" && setOk && saveOk {
        success := true;
      }
      if !success { seedId := ""; }
    }

    /** `seedLanguageModel`: the cached language list of a seed style; an
        out-of-range style yields null and caches nothing. */
    method SeedLanguageModel(style: int, allowed: seq<(int, string)>) returns (m: SeedLanguage?)
      requires Valid()
      modifies this`seedLanguage
      ensures Valid()
      ensures style in old(seedLanguage) ==> m == old(seedLanguage[style]) && seedLanguage == old(seedLanguage)
      ensures style !in old(seedLanguage) && !InByteRange(style) ==> m == null && seedLanguage == old(seedLanguage)
      ensures style !in old(seedLanguage) && InByteRange(style) ==>
        m != null && fresh(m) && m.style == style && m.rows == Transform(allowed)
        && seedLanguage == old(seedLanguage)[style := m]
    {
      if style in seedLanguage {
        return seedLanguage[style];
      }
      if !InByteRange(style) {
        return null;
      }
      m := new SeedLanguage(style, Transform(allowed));
      seedLanguage := seedLanguage[style := m];
    }

    /** `seedSizeModel`: the cached strength list of a seed style; an
        out-of-range style yields null and caches nothing. */
    method SeedSizeModel(style: int, allowed: seq<(int, string)>) returns (m: SeedSize?)
      requires Valid()
      modifies this`seedSize
      ensures Valid()
      ensures style in old(seedSize) ==> m == old(seedSize[style]) && seedSize == old(seedSize)
      ensures style !in old(seedSize) && !InByteRange(style) ==> m == null && seedSize == old(seedSize)
      ensures style !in old(seedSize) && InByteRange(style) ==>
        m != null && fresh(m) && m.style == style && m.rows == Transform(allowed)
        && seedSize == old(seedSize)[style := m]
    {
      if style in seedSize {
        return seedSize[style];
      }
      if !InByteRange(style) {
        return null;
      }
      m := new SeedSize(style, Transform(allowed));
      seedSize := seedSize[style := m];
    }

    /** `seedWordValidator`: the cached validator for a style and a language,
        both narrowed to a byte, created on the first request. */
    method SeedWordValidator(style: int, lang: int) returns (v: SeedWord)
      requires Valid()
      modifies this`seedValidators
      ensures Valid()
      ensures v.style == Byte(style) && v.language == Byte(lang)
      ensures var s, l := Byte(style), Byte(lang);
        l in Inner(old(seedValidators), s) ==> v == old(seedValidators)[s][l] && seedValidators == old(seedValidators)
      ensures var s, l := Byte(style), Byte(lang);
        l !in Inner(old(seedValidators), s) ==>
          fresh(v) && seedValidators == old(seedValidators)[s := Inner(old(seedValidators), s)[l := v]]
    {
      var s := Byte(style);
      var l := Byte(lang);
      var inner := Inner(seedValidators, s);
      if l in inner {
        return inner[l];
      }
      v := new SeedWord(s, l);
      seedValidators := seedValidators[s := inner[l := v]];
    }
  }

  /** Asking twice for the same account returns the identical model. */
  method SameAccountSameModel(imp: Imp, id: string) returns (first: AccountActivity, second: AccountActivity)
    requires imp.Valid()
    modifies imp`accountActivity
    ensures first == second && first.account == id
  {
    first := imp.AccountActivityModel(id);
    second := imp.AccountActivityModel(id);
  }

  /** Styles and languages that agree modulo 256 share one validator. */
  method ValidatorKeysWrap(imp: Imp, style: int, lang: int) returns (a: SeedWord, b: SeedWord)
    requires imp.Valid()
    modifies imp`seedValidators
    ensures a == b
  {
    a := imp.SeedWordValidator(style, lang);
    b := imp.SeedWordValidator(style + 256, lang - 256);
  }

  /** With every step of `createNym` succeeding, the code as written still
      ends with an empty nym id. */
  method NymLostOnSuccess() returns (made: Option<string>, kept: string)
    ensures made == Some("nym-1") && kept == ""
  {
    var imp := new Imp([]);
    var list := imp.CreateNewSeed(0, 0, 128, (s: int, l: int, n: int) => "seed-1", true, true, (id: string) => "abandon ability");
    var makeNym := (alias: string, seed: string) => Some("nym-1");
    imp.CreateNymAsWritten("alias", makeNym, true, true);
    made, kept := makeNym("alias", imp.seedId), imp.nymId;
  }

  /** The corrected `createNym` keeps the id of the nym it made. */
  method NymKeptOnSuccess() returns (made: Option<string>, kept: string)
    ensures made == Some("nym-1") && kept == "nym-1"
  {
    var imp := new Imp([]);
    var list := imp.CreateNewSeed(0, 0, 128, (s: int, l: int, n: int) => "seed-1", true, true, (id: string) => "abandon ability");
    var makeNym := (alias: string, seed: string) => Some("nym-1");
    imp.CreateNym("alias", makeNym, true, true);
    made, kept := makeNym("alias", imp.seedId), imp.nymId;
  }
}
