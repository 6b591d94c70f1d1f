/**
 The modes of actions and rounds: what a game's shop offers (`src/game-definition.ts`, `src/shop.ts`), the actions the
 client builds from it, and the mode under which such an action and the round it led to are counted (`src/protocol.ts`).
 */
module SpinModes {
  import opened Base
  import opened Sorting

  const BOOSTER_SPIN_TYPE_OFFSET := 1000

  // ----- the shop -----

  datatype Priced = Priced(number: int, price: int)

  /** The four ways in which a session can price purchases, and its boosters. */
  datatype Settings = Settings(mapped: Option<seq<Priced>>, listed: Option<seq<int>>, suffixed: seq<Priced>,
                               single: Option<int>, boosters: seq<Priced>)

  datatype BuyMode = BuyMode(providerMode: int, spinType: int, price: int)

  function Numbered(prices: seq<int>): seq<Priced> {
    seq(|prices|, i requires 0 <= i < |prices| => Priced(i + 1, prices[i]))
  }

  predicate ValidPrices(entries: seq<Priced>) {
    forall e | e in entries :: e.number > 0 && e.price > 0
  }

  predicate UniqueNumbers(entries: seq<Priced>) {
    forall i, j | 0 <= i < j < |entries| :: entries[i].number != entries[j].number
  }

  function BySpinType(x: BuyMode, y: BuyMode): bool {
    x.spinType <= y.spinType
  }

  /** One mode for each entry, under the number the provider uses. */
  function Modes(entries: seq<Priced>): Option<seq<BuyMode>> {
    if !ValidPrices(entries) || !UniqueNumbers(entries) then None
    else
      Some(Sort(seq(|entries|, i requires 0 <= i < |entries| =>
        BuyMode(entries[i].number, entries[i].number, entries[i].price)), BySpinType))
  }

  function Present(s: Settings): nat {
    (if s.mapped.Some? then 1 else 0) + (if s.listed.Some? then 1 else 0) + (if s.suffixed != [] then 1 else 0)
    + if s.single.Some? then 1 else 0
  }

  /** `parseBuyModes`; `None` is an error. */
  function ParseBuyModes(s: Settings): Option<seq<BuyMode>> {
    if Present(s) > 1 then None
    else if s.mapped.Some? then Modes(s.mapped.value)
    else if s.listed.Some? then (if s.listed.value == [] then None else Modes(Numbered(s.listed.value)))
    else if s.suffixed != [] then Modes(s.suffixed)
    else if s.single.Some? then Modes([Priced(1, s.single.value)])
    else Some([])
  }

  // ----- actions -----

  /** An action, or the first frame's account of it; `spinType` is only set on purchases. */
  datatype Action = Action(name: string, spinType: Option<int>, selectedMode: Option<int>, ante: bool)

  const SPIN := Action("spin", None, None, false)

  function Booster(number: int): Action {
    Action("spin", None, Some(number), true)
  }

  function Purchase(mode: BuyMode): Action {
    Action("buy_spin", Some(mode.spinType), Some(mode.providerMode), false)
  }

  function ByNumber(x: Priced, y: Priced): bool {
    x.number <= y.number
  }

  function Boosters(entries: seq<Priced>): seq<Action> {
    if entries == [] then []
    else (if entries[0].number > 0 && entries[0].price > 0 then [Booster(entries[0].number)] else []) + Boosters(entries[1..])
  }

  function Purchases(modes: seq<BuyMode>, available: set<int>): seq<Action> {
    if modes == [] then []
    else
      (if available == {} || modes[0].providerMode in available then [Purchase(modes[0])] else [])
      + Purchases(modes[1..], available)
  }

  /** `buildPlayableActions` over `discoverShop`: a spin, the boosters and the purchases on offer. */
  function BuildActions(s: Settings, available: set<int>, offersSpin: bool, offersBuy: bool): Option<seq<Action>> {
    var modes := ParseBuyModes(s);
    if modes.None? then None
    else
      Some((if offersSpin then [SPIN] + Boosters(Sort(s.boosters, ByNumber)) else [])
           + (if offersBuy then Purchases(modes.value, available) else []))
  }

  /** An action some session can lead the client to build. */
  ghost predicate Built(a: Action) {
    || a == SPIN
    || (a.selectedMode.Some? && a.selectedMode.value > 0 && a == Booster(a.selectedMode.value))
    || (a.name == "buy_spin" && a.selectedMode.Some? && a.selectedMode.value > 0 && a.spinType == a.selectedMode && !a.ante)
  }

  lemma {:induction false} BoostersBuilt(entries: seq<Priced>)
    ensures forall a | a in Boosters(entries) :: Built(a)
    decreases entries
  {
    if entries != [] { BoostersBuilt(entries[1..]); }
  }

  lemma {:induction false} PurchasesBuilt(modes: seq<BuyMode>, available: set<int>)
    requires forall m | m in modes :: m.spinType == m.providerMode > 0
    ensures forall a | a in Purchases(modes, available) :: Built(a)
    decreases modes
  {
    if modes != [] { PurchasesBuilt(modes[1..], available); }
  }

  /** Every purchase mode has one positive number, for the provider and for counting. */
  lemma BuyModesAgree(s: Settings)
    requires ParseBuyModes(s).Some?
    ensures forall m | m in ParseBuyModes(s).value :: m.spinType == m.providerMode > 0
  {
    forall m | m in ParseBuyModes(s).value ensures m.spinType == m.providerMode > 0 {
      if s.mapped.Some? { ModesAgree(s.mapped.value, m); }
      else if s.listed.Some? { ModesAgree(Numbered(s.listed.value), m); }
      else if s.suffixed != [] { ModesAgree(s.suffixed, m); }
      else { ModesAgree([Priced(1, s.single.value)], m); }
    }
  }

  lemma ModesAgree(entries: seq<Priced>, m: BuyMode)
    requires Modes(entries).Some? && m in Modes(entries).value
    ensures m.spinType == m.providerMode > 0
  {
    hide Sort;
    var all := seq(|entries|, i requires 0 <= i < |entries| =>
      BuyMode(entries[i].number, entries[i].number, entries[i].price));
    SortMembers(all, BySpinType, m);
    var i :| 0 <= i < |all| && all[i] == m;
    assert entries[i] in entries;
  }

  lemma BuildActionsBuilt(s: Settings, available: set<int>, offersSpin: bool, offersBuy: bool, a: Action)
    requires BuildActions(s, available, offersSpin, offersBuy).Some?
    requires a in BuildActions(s, available, offersSpin, offersBuy).value
    ensures Built(a)
  {
    BoostersBuilt(Sort(s.boosters, ByNumber));
    BuyModesAgree(s);
    PurchasesBuilt(ParseBuyModes(s).value, available);
  }

  // ----- what a session offers -----

  /** The session prices the purchase with that number. */
  ghost predicate Prices(s: Settings, number: int, price: int) {
    || (s.mapped.Some? && Priced(number, price) in s.mapped.value)
    || (s.listed.Some? && 1 <= number <= |s.listed.value| && s.listed.value[number - 1] == price)
    || Priced(number, price) in s.suffixed
    || (number == 1 && s.single == Some(price))
  }

  /** Prices in more than one way, or an entry twice. */
  ghost predicate Conflicting(s: Settings) {
    || (s.mapped.Some? && (s.listed.Some? || s.suffixed != [] || s.single.Some?))
    || (s.listed.Some? && (s.suffixed != [] || s.single.Some?))
    || (s.suffixed != [] && s.single.Some?)
    || (s.mapped.Some? && Repeated(s.mapped.value)) || Repeated(s.suffixed)
  }

  ghost predicate Repeated(entries: seq<Priced>) {
    exists i, j :: 0 <= i < j < |entries| && entries[i].number == entries[j].number
  }

  lemma ModesExact(entries: seq<Priced>)
    ensures Modes(entries).None? <==> Repeated(entries) || exists e :: e in entries && (e.number <= 0 || e.price <= 0)
    ensures Modes(entries).Some? ==> forall m ::
      m in Modes(entries).value <==> m.spinType == m.providerMode && Priced(m.providerMode, m.price) in entries
    ensures Modes(entries).Some? ==>
      forall i, j | 0 <= i < j < |Modes(entries).value| :: Modes(entries).value[i].spinType < Modes(entries).value[j].spinType
  {
    hide Sort, Sorted;
    if Modes(entries).Some? {
      var all := seq(|entries|, i requires 0 <= i < |entries| =>
        BuyMode(entries[i].number, entries[i].number, entries[i].price));
      forall m ensures m in Sort(all, BySpinType) <==>
        m.spinType == m.providerMode && Priced(m.providerMode, m.price) in entries
      {
        SortMembers(all, BySpinType, m);
        if m in all {
          var i :| 0 <= i < |all| && all[i] == m;
          assert entries[i] == Priced(m.providerMode, m.price);
        }
        if m.spinType == m.providerMode && Priced(m.providerMode, m.price) in entries {
          var i :| 0 <= i < |entries| && entries[i] == Priced(m.providerMode, m.price);
          assert all[i] == m;
        }
      }
      SortSorts(all, BySpinType);
      SortKeepsDistinct(all, BySpinType, (m: BuyMode) => m.spinType);
      forall i, j | 0 <= i < j < |all| && j < |Sort(all, BySpinType)|
        ensures Sort(all, BySpinType)[i].spinType <= Sort(all, BySpinType)[j].spinType
      {
        SortedPairs(Sort(all, BySpinType), BySpinType, i, j);
      }
      SortBag(all, BySpinType);
      assert |multiset(Sort(all, BySpinType))| == |multiset(all)|;
    }
  }

  lemma NumberedHas(prices: seq<int>, number: int, price: int)
    ensures Priced(number, price) in Numbered(prices) <==> 1 <= number <= |prices| && prices[number - 1] == price
    ensures !Repeated(Numbered(prices))
  {
    if 1 <= number <= |prices| && prices[number - 1] == price {
      assert Numbered(prices)[number - 1] == Priced(number, price);
    }
  }

  /** The one way in which a session prices its purchases. */
  ghost function Source(s: Settings): seq<Priced> {
    if s.mapped.Some? then s.mapped.value else if s.listed.Some? then Numbered(s.listed.value)
    else if s.suffixed != [] then s.suffixed else if s.single.Some? then [Priced(1, s.single.value)] else []
  }

  lemma SourceHas(s: Settings, number: int, price: int)
    requires Present(s) <= 1
    ensures Priced(number, price) in Source(s) <==> Prices(s, number, price)
    ensures Repeated(Source(s)) <==> Conflicting(s)
  {
    if s.listed.Some? { NumberedHas(s.listed.value, number, price); }
  }

  /**
   The purchase modes of a session: an error exactly when it prices purchases in two ways, prices one twice, gives an empty
   list, or has a number or a price that is not positive; otherwise one mode for every price, in the order of numbers.
   */
  lemma BuyModesExact(s: Settings)
    ensures ParseBuyModes(s).None? <==>
      Conflicting(s) || s.listed == Some([]) || exists n, p :: Prices(s, n, p) && (n <= 0 || p <= 0)
    ensures ParseBuyModes(s).Some? ==> forall m ::
      m in ParseBuyModes(s).value <==> m.spinType == m.providerMode && Prices(s, m.providerMode, m.price)
    ensures ParseBuyModes(s).Some? ==>
      var ms := ParseBuyModes(s).value; forall i, j | 0 <= i < j < |ms| :: ms[i].spinType < ms[j].spinType
  {
    hide Modes, Numbered, Repeated, Prices;
    if Present(s) <= 1 {
      forall n, p ensures Priced(n, p) in Source(s) <==> Prices(s, n, p) { SourceHas(s, n, p); }
      SourceHas(s, 0, 0);
      ModesExact(Source(s));
      NoModes();
      assert forall e: Priced :: e == Priced(e.number, e.price);
    }
  }

  lemma NoModes()
    ensures Modes([]) == Some([]) && !Repeated([])
  {
  }

  lemma {:induction false} BoostersExact(entries: seq<Priced>, a: Action)
    ensures a in Boosters(entries) <==>
      exists e :: e in entries && e.number > 0 && e.price > 0 && a == Action("spin", None, Some(e.number), true)
    decreases entries
  {
    if entries != [] { BoostersExact(entries[1..], a); }
  }

  lemma {:induction false} PurchasesExact(modes: seq<BuyMode>, available: set<int>, a: Action)
    ensures a in Purchases(modes, available) <==>
      exists m :: m in modes && (available == {} || m.providerMode in available)
                  && a == Action("buy_spin", Some(m.spinType), Some(m.providerMode), false)
    decreases modes
  {
    if modes != [] { PurchasesExact(modes[1..], available, a); }
  }

  /**
   What a session lets the client play: an ordinary spin and every booster with a positive number and price when it offers
   spins, and every purchase it prices and lists as available, or prices when it lists none, when it offers purchases.
   */
  lemma ActionsExact(s: Settings, available: set<int>, offersSpin: bool, offersBuy: bool, a: Action)
    ensures BuildActions(s, available, offersSpin, offersBuy).None? <==> ParseBuyModes(s).None?
    ensures BuildActions(s, available, offersSpin, offersBuy).Some? ==>
      (a in BuildActions(s, available, offersSpin, offersBuy).value <==>
        || (offersSpin && a == Action("spin", None, None, false))
        || (offersSpin && exists n, p :: Priced(n, p) in s.boosters && n > 0 && p > 0
                                         && a == Action("spin", None, Some(n), true))
        || (offersBuy && exists n, p :: Prices(s, n, p) && (available == {} || n in available)
                                        && a == Action("buy_spin", Some(n), Some(n), false)))
  {
    hide ParseBuyModes, Prices, Boosters, Purchases;
    var boosters := Sort(s.boosters, ByNumber);
    forall e ensures e in boosters <==> e in s.boosters { SortMembers(s.boosters, ByNumber, e); }
    hide Sort;
    BoostersExact(boosters, a);
    assert forall e: Priced :: e == Priced(e.number, e.price);
    if ParseBuyModes(s).Some? {
      var modes := ParseBuyModes(s).value;
      BuyModesExact(s);
      PurchasesExact(modes, available, a);
      if n, p :| Prices(s, n, p) && (available == {} || n in available)
                 && a == Action("buy_spin", Some(n), Some(n), false) {
        assert BuyMode(n, n, p) in modes;
      }
    }
  }

  // ----- the mode of an action and of a round -----

  function Selected(a: Action): int {
    if a.selectedMode.Some? then a.selectedMode.value else 0
  }

  /** `actionSpinType`: a purchase keeps its number, a booster moves to a range of its own, the rest is normal. */
  function ActionMode(a: Action): int {
    if a.spinType.Some? && a.spinType.value > 0 then a.spinType.value
    else if Selected(a) <= 0 then 0
    else if a.name == "buy_spin" then Selected(a)
    else if a.name == "spin" && a.ante then BOOSTER_SPIN_TYPE_OFFSET + Selected(a)
    else 0
  }

  /** `roundSpinType`: the mode of a stored round, from its first frame and the mode it was stored under. */
  function RoundMode(first: Action, stored: int): int {
    var detected := ActionMode(first.(spinType := None));
    if first.name == "buy_spin" && stored > 0 && first.selectedMode.Some?
       && (first.selectedMode.value == 0 || stored == first.selectedMode.value + 1) then stored
    else if detected > 0 then detected
    else if first.name == "spin" then (if stored > BOOSTER_SPIN_TYPE_OFFSET then stored else 0)
    else Max(0, stored)
  }

  /** The first frame names another mode than the one that was asked for, numbered from one or from zero. */
  predicate Contradicts(first: Action, asked: Action) {
    Selected(first) > 0 &&
    if asked.name == "buy_spin" then ActionMode(asked) !in {Selected(first), Selected(first) + 1}
    else first.ante && ActionMode(asked) != BOOSTER_SPIN_TYPE_OFFSET + Selected(first)
  }

  /** For every action the client builds: its round is recounted under its mode unless the first frame contradicts it. */
  lemma RecountKeepsModeIff(asked: Action, first: Action)
    requires Built(asked) && first.name == asked.name
    ensures RoundMode(first, ActionMode(asked)) == ActionMode(asked) <==> !Contradicts(first, asked)
  {
    assert ActionMode(asked) >= 0;
  }

  /**
   Whatever a session offers, a round played with one of its actions is recounted under the mode it was collected for,
   when the first frame repeats the parameters, leaves them out or counts purchases from zero.
   */
  lemma BuiltRoundsKeepTheirMode(s: Settings, available: set<int>, offersSpin: bool, offersBuy: bool, a: Action)
    requires BuildActions(s, available, offersSpin, offersBuy).Some?
    requires a in BuildActions(s, available, offersSpin, offersBuy).value
    ensures RoundMode(a, ActionMode(a)) == ActionMode(a)
    ensures RoundMode(a.(selectedMode := None, ante := false), ActionMode(a)) == ActionMode(a)
    ensures a.name == "buy_spin" ==> RoundMode(a.(selectedMode := Some(Selected(a) - 1)), ActionMode(a)) == ActionMode(a)
  {
    hide BuildActions;
    BuildActionsBuilt(s, available, offersSpin, offersBuy, a);
    RecountKeepsModeIff(a, a);
    RecountKeepsModeIff(a, a.(selectedMode := None, ante := false));
    RecountKeepsModeIff(a, a.(selectedMode := Some(Selected(a) - 1)));
  }

  /** Different built actions have different modes, but for a purchase numbered like a booster's place in its range. */
  lemma ModesCollideIff(a: Action, b: Action)
    requires Built(a) && Built(b) && a != b && (a.name == "spin" || b.name == "buy_spin")
    ensures ActionMode(a) == ActionMode(b) <==>
      a.ante && b.name == "buy_spin" && Selected(b) == BOOSTER_SPIN_TYPE_OFFSET + Selected(a)
  {
    assert ActionMode(a) == if a == SPIN then 0 else if a.ante then BOOSTER_SPIN_TYPE_OFFSET + Selected(a) else Selected(a);
  }

  /** The numbers that rounds are counted under: zero for a spin, a purchase's own, and a booster's plus a thousand. */
  lemma ModesAre(n: int)
    requires n > 0
    ensures ActionMode(Action("spin", None, None, false)) == 0
    ensures ActionMode(Action("buy_spin", Some(n), Some(n), false)) == n
    ensures ActionMode(Action("spin", None, Some(n), true)) == 1000 + n
  {
  }

  /** The mode that the first frame of a round names, if it names one. */
  ghost predicate NamesMode(first: Action, mode: int) {
    && first.selectedMode.Some? && first.selectedMode.value > 0
    && ((first.name == "buy_spin" && mode == first.selectedMode.value)
        || (first.name == "spin" && first.ante && mode == 1000 + first.selectedMode.value))
  }

  /**
   The mode of a stored round: a purchase keeps the mode it was stored under when its first frame counts purchases from
   zero; otherwise the mode that the frame names; a spin that names none is a booster's only if it was stored as one.
   */
  lemma RoundModeIs(first: Action, stored: int)
    ensures var mode, selected := RoundMode(first, stored), first.selectedMode;
      if first.name == "buy_spin" && stored > 0 && (selected == Some(0) || selected == Some(stored - 1)) then mode == stored
      else if exists m :: NamesMode(first, m) then NamesMode(first, mode)
      else if first.name == "spin" then mode == if stored > 1000 then stored else 0
      else mode == if stored > 0 then stored else 0
  {
    if m :| NamesMode(first, m) {
      assert m > 0 && ActionMode(first.(spinType := None)) == m;
    } else {
      assert !NamesMode(first, Selected(first)) && !NamesMode(first, 1000 + Selected(first));
    }
  }
}
