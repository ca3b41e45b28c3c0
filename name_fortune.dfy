/**
 * The name-fortune page of script.js: the module-level list of chosen Chinese
 * characters (hanja) with their meanings, selecting and removing entries, and
 * the reading `getFortune` composes from the list and a birth date. The
 * dictionary search, the page markup and the lucky number are not modelled.
 */
module NameFortune {
  import opened Wrappers
  import opened JsBuiltins

  /** One chosen character and its meaning. */
  datatype HanjaChoice = HanjaChoice(hanja: string, meaning: string)

  ghost predicate DistinctHanja(s: seq<HanjaChoice>) {
    forall i, j :: 0 <= i < j < |s| ==> s[i].hanja != s[j].hanja
  }

  // ---------------------------------------------------------------------------
  // Selecting and removing

  /** `selectedHanja.find(h => h.hanja === hanja)`: the first choice with that character. */
  function Find(s: seq<HanjaChoice>, hanja: string): (r: Option<HanjaChoice>)
    ensures r.None? <==> forall i :: 0 <= i < |s| ==> s[i].hanja != hanja
    ensures r.Some? ==> r.value in s && r.value.hanja == hanja
  {
    if s == [] then None
    else if s[0].hanja == hanja then Some(s[0])
    else Find(s[1..], hanja)
  }

  /** The list after `selectHanja(hanja, meaning)`. */
  function WithChoice(s: seq<HanjaChoice>, hanja: string, meaning: string): (r: seq<HanjaChoice>)
    ensures (exists i :: 0 <= i < |s| && s[i].hanja == hanja) ==> r == s
    ensures (forall i :: 0 <= i < |s| ==> s[i].hanja != hanja) ==> r == s + [HanjaChoice(hanja, meaning)]
    ensures exists i :: 0 <= i < |r| && r[i].hanja == hanja
    ensures DistinctHanja(s) ==> DistinctHanja(r)
  {
    if Find(s, hanja).None? then
      var r := s + [HanjaChoice(hanja, meaning)];
      assert r[|s|].hanja == hanja;
      r
    else
      s
  }

  /** Taking one element out of a list of distinct characters leaves them distinct. */
  lemma RemovalKeepsDistinct(r: seq<HanjaChoice>, s: seq<HanjaChoice>, k: int)
    requires DistinctHanja(s) && IsRemovalAt(r, s, k)
    ensures DistinctHanja(r)
  {
    forall i, j | 0 <= i < j < |r|
      ensures r[i].hanja != r[j].hanja
    {
      var i' := if i < k then i else i + 1;
      var j' := if j < k then j else j + 1;
      assert r[i] == s[i'] && r[j] == s[j'];
    }
  }

  /** `removeHanja` keeps the characters distinct, whatever index it is given. */
  lemma SpliceKeepsDistinct(s: seq<HanjaChoice>, index: int)
    requires DistinctHanja(s)
    ensures DistinctHanja(SpliceOne(s, index))
  {
    var r := SpliceOne(s, index);
    if 0 <= index < |s| {
      RemovalKeepsDistinct(r, s, index);
    } else if -|s| <= index < 0 {
      RemovalKeepsDistinct(r, s, |s| + index);
    } else if index < -|s| && s != [] {
      RemovalKeepsDistinct(r, s, 0);
    }
  }

  // ---------------------------------------------------------------------------
  // The reading

  /** The five destiny readings. */
  const DestinyTable: seq<string> := [
    "목(木)의 기운이 강한 사주로, 창의력과 리더십이 뛰어납니다.",
    "화(火)의 기운이 강한 사주로, 열정과 추진력이 뛰어납니다.",
    "토(土)의 기운이 강한 사주로, 안정성과 신뢰성이 뛰어납니다.",
    "금(金)의 기운이 강한 사주로, 결단력과 실행력이 뛰어납니다.",
    "수(水)의 기운이 강한 사주로, 지혜와 통찰력이 뛰어납니다."
  ]

  /** The five readings for children. */
  const ChildrenTable: seq<string> := [
    "자녀운이 매우 좋은 시기입니다. 자녀와의 관계가 더욱 돈독해질 것입니다.",
    "자녀 교육에 좋은 시기입니다. 자녀의 재능을 발견할 수 있는 기회가 올 것입니다.",
    "자녀와의 소통이 원활해질 것입니다. 서로의 마음을 더 잘 이해하게 될 것입니다.",
    "자녀의 건강에 특별히 신경 써야 할 시기입니다. 충분한 관심이 필요합니다.",
    "자녀의 학업운이 좋은 시기입니다. 좋은 성과를 거둘 수 있을 것입니다."
  ]

  /** The five readings for health. */
  const HealthTable: seq<string> := [
    "건강운이 매우 좋은 시기입니다. 활력이 넘치는 날들이 이어질 것입니다.",
    "스트레스 관리에 신경 써야 할 시기입니다. 충분한 휴식이 필요합니다.",
    "운동을 통해 건강을 증진할 수 있는 좋은 시기입니다.",
    "식생활 관리가 중요한 시기입니다. 균형 잡힌 영양 섭취가 필요합니다.",
    "정신 건강에 특별히 신경 써야 할 시기입니다. 마음의 안정을 찾는 것이 중요합니다."
  ]

  /** The five readings for wealth. */
  const WealthTable: seq<string> := [
    "재물운이 매우 좋은 시기입니다. 예상치 못한 수입이 생길 수 있습니다.",
    "투자나 사업에 좋은 시기입니다. 신중한 판단이 필요합니다.",
    "재물 관리에 신경 써야 할 시기입니다. 불필요한 지출을 줄이는 것이 좋습니다.",
    "새로운 수입원을 찾을 수 있는 기회가 올 것입니다.",
    "재물운이 안정적인 시기입니다. 꾸준한 수입이 예상됩니다."
  ]

  /** The ten heavenly stems. */
  const Ganji: seq<string> := ["갑", "을", "병", "정", "무", "기", "경", "신", "임", "계"]

  /** The parts of a birth date `getFortune` reads: full year, month from 1, day of month. */
  datatype CalendarDate = CalendarDate(year: int, month: int, day: int)

  predicate NonNegative(d: CalendarDate) {
    d.year >= 0 && d.month >= 0 && d.day >= 0
  }

  /** The table indices `getFortune` derives from a date. */
  datatype TableIndices = TableIndices(destiny: int, children: int, health: int, wealth: int, ganji: int)

  function IndicesOf(d: CalendarDate): (ix: TableIndices)
    ensures NonNegative(d) ==>
              (0 <= ix.destiny < |DestinyTable| && 0 <= ix.children < |ChildrenTable|
               && 0 <= ix.health < |HealthTable| && 0 <= ix.wealth < |WealthTable|
               && 0 <= ix.ganji < |Ganji|)
  {
    TableIndices(
      Remainder(d.year + d.month + d.day, |DestinyTable|),
      Remainder(d.year + d.day, |ChildrenTable|),
      Remainder(d.month + d.day, |HealthTable|),
      Remainder(d.year + d.month, |WealthTable|),
      Remainder(d.year + d.month + d.day, |Ganji|))
  }

  /** For a non-negative sum, its remainder by 10 determines its remainder by 5. */
  lemma TenThenFive(s: nat)
    ensures (s % 10) % 5 == s % 5
  {
    var q, t := s / 10, s % 10;
    assert s == 10 * q + t;
    assert t == 5 * (t / 5) + t % 5;
    ModUnique(s, 5, 2 * q + t / 5, t % 5);
  }

  /** The day's stem determines the destiny reading: both come from the same sum. */
  lemma GanjiDeterminesDestiny(d: CalendarDate)
    ensures IndicesOf(d).destiny == Remainder(IndicesOf(d).ganji, 5)
  {
    var s := d.year + d.month + d.day;
    if s >= 0 {
      TenThenFive(s);
    } else {
      TenThenFive(-s);
    }
  }

  /** `${t[i]}`: an index outside the table renders as "undefined". */
  function TableAt(t: seq<string>, i: int): string {
    if 0 <= i < |t| then t[i] else "undefined"
  }

  function Hanjas(s: seq<HanjaChoice>): (r: seq<string>)
    ensures |r| == |s| && forall i :: 0 <= i < |s| ==> r[i] == s[i].hanja
  {
    seq(|s|, i requires 0 <= i < |s| => s[i].hanja)
  }

  function Meanings(s: seq<HanjaChoice>): (r: seq<string>)
    ensures |r| == |s| && forall i :: 0 <= i < |s| ==> r[i] == s[i].meaning
  {
    seq(|s|, i requires 0 <= i < |s| => s[i].meaning)
  }

  /** What `getFortune` writes: the error message, or a reading. */
  datatype FortuneResult =
    | MissingInput
    | Reading(name: string, nameMeaning: string, destiny: string, ganjiDay: string,
              children: string, health: string, wealth: string)

  /** `getFortune` for a list, the date field's text and the date it denotes. */
  function Fortune(selected: seq<HanjaChoice>, birthdate: string, d: CalendarDate): (r: FortuneResult)
    ensures r.MissingInput? <==> |selected| == 0 || birthdate == ""
    ensures r.Reading? ==> r.name == Join("", Hanjas(selected))
    ensures r.Reading? ==> r.nameMeaning == Join(", ", Meanings(selected))
    ensures r.Reading? ==>
              var ix := IndicesOf(d);
              r.destiny == TableAt(DestinyTable, ix.destiny) && r.ganjiDay == TableAt(Ganji, ix.ganji)
              && r.children == TableAt(ChildrenTable, ix.children) && r.health == TableAt(HealthTable, ix.health)
              && r.wealth == TableAt(WealthTable, ix.wealth)
    ensures r.Reading? && NonNegative(d) ==>
              (r.destiny in DestinyTable && r.ganjiDay in Ganji && r.children in ChildrenTable
               && r.health in HealthTable && r.wealth in WealthTable)
  {
    if |selected| == 0 || birthdate == "" then MissingInput
    else
      var ix := IndicesOf(d);
      Reading(Join("", Hanjas(selected)), Join(", ", Meanings(selected)),
              TableAt(DestinyTable, ix.destiny), TableAt(Ganji, ix.ganji),
              TableAt(ChildrenTable, ix.children), TableAt(HealthTable, ix.health),
              TableAt(WealthTable, ix.wealth))
  }

  /** Selecting a new character appends it to the name, so the name follows the order of selection. */
  lemma NameFollowsSelection(s: seq<HanjaChoice>, hanja: string, meaning: string)
    requires forall i :: 0 <= i < |s| ==> s[i].hanja != hanja
    ensures Join("", Hanjas(WithChoice(s, hanja, meaning))) == Join("", Hanjas(s)) + hanja
  {
    var r := s + [HanjaChoice(hanja, meaning)];
    assert WithChoice(s, hanja, meaning) == r;
    assert Hanjas(r) == Hanjas(s) + [hanja];
    JoinSnoc("", Hanjas(s), hanja);
    if s == [] {
      assert Join("", Hanjas(s)) == "";
    }
  }

  /** Selecting a new character appends its meaning to the comma-separated meanings. */
  lemma MeaningsFollowSelection(s: seq<HanjaChoice>, hanja: string, meaning: string)
    requires forall i :: 0 <= i < |s| ==> s[i].hanja != hanja
    ensures Join(", ", Meanings(WithChoice(s, hanja, meaning)))
            == if s == [] then meaning else Join(", ", Meanings(s)) + ", " + meaning
  {
    var r := s + [HanjaChoice(hanja, meaning)];
    assert WithChoice(s, hanja, meaning) == r;
    assert Meanings(r) == Meanings(s) + [meaning];
    JoinSnoc(", ", Meanings(s), meaning);
  }

  // ---------------------------------------------------------------------------
  // The page's state

  /** The module-level `selectedHanja` array. */
  class NamePage {
    var selectedHanja: seq<HanjaChoice>

    ghost predicate Valid()
      reads this
    {
      DistinctHanja(selectedHanja)
    }

    constructor ()
      ensures Valid() && selectedHanja == []
    {
      selectedHanja := [];
    }

    method SelectHanja(hanja: string, meaning: string)
      requires Valid()
      modifies this
      ensures Valid()
      ensures selectedHanja == WithChoice(old(selectedHanja), hanja, meaning)
    {
      if Find(selectedHanja, hanja).None? {
        selectedHanja := selectedHanja + [HanjaChoice(hanja, meaning)];
      }
    }

    method RemoveHanja(index: int)
      requires Valid()
      modifies this
      ensures Valid()
      ensures selectedHanja == SpliceOne(old(selectedHanja), index)
    {
      SpliceKeepsDistinct(selectedHanja, index);
      selectedHanja := SpliceOne(selectedHanja, index);
    }

    method GetFortune(birthdate: string, d: CalendarDate) returns (r: FortuneResult)
      ensures r == Fortune(selectedHanja, birthdate, d)
    {
      r := Fortune(selectedHanja, birthdate, d);
    }
  }
}
