/** A parsed roster row and the ways the source reads it: JavaScript truthiness chains
    (`a || b || c`), Python presence chains (`d.get(a, d.get(b, default))`) and the
    numbered skill columns `Skill1..Skill5` / `SkillN_Level`. */
module Records {
  import opened Wrappers
  import Text

  /** One CSV row: (column, value) pairs in column order. */
  type Row = seq<(string, string)>

  /** The value of the first column named `key`, if the row has one. */
  function Get(row: Row, key: string): (v: Option<string>)
    ensures v.None? <==> forall k :: 0 <= k < |row| ==> row[k].0 != key
    ensures v.Some? ==> exists k :: 0 <= k < |row| && row[k] == (key, v.value)
  {
    if row == [] then None
    else if row[0].0 == key then Some(row[0].1)
    else Get(row[1..], key)
  }

  /** JavaScript truthiness of `row[key]`: the column exists and is not the empty string. */
  predicate Truthy(row: Row, key: string) {
    Get(row, key).Some? && Get(row, key).value != ""
  }

  /** `row[keys[0]] || row[keys[1]] || ... || fallback`. */
  function FirstTruthy(row: Row, keys: seq<string>, fallback: string): (r: string)
    ensures (forall i :: 0 <= i < |keys| ==> !Truthy(row, keys[i])) ==> r == fallback
    ensures forall i :: 0 <= i < |keys| && Truthy(row, keys[i]) && (forall j :: 0 <= j < i ==> !Truthy(row, keys[j]))
              ==> r == Get(row, keys[i]).value
  {
    if keys == [] then fallback
    else if Truthy(row, keys[0]) then Get(row, keys[0]).value
    else FirstTruthy(row, keys[1..], fallback)
  }

  /** `row[a] || row[b]` as a value that may be undefined: JavaScript yields `row[b]` whenever
      `row[a]` is falsy, even if `row[b]` is itself absent or empty. */
  function EitherOr(row: Row, a: string, b: string): (r: Option<string>)
    ensures Truthy(row, a) ==> r == Get(row, a)
    ensures !Truthy(row, a) ==> r == Get(row, b)
  {
    if Truthy(row, a) then Get(row, a) else Get(row, b)
  }

  /** Python `d.get(keys[0], d.get(keys[1], ... default))`: the first PRESENT key wins,
      whatever its value. */
  function GetChain(row: Row, keys: seq<string>, default: string): string {
    if keys == [] then default
    else if Get(row, keys[0]).Some? then Get(row, keys[0]).value
    else GetChain(row, keys[1..], default)
  }

  /** The chain yields the default when no key is present, and otherwise the value of the
      first present key. */
  lemma {:induction false} GetChainFirstPresent(row: Row, keys: seq<string>, default: string)
    ensures (forall i :: 0 <= i < |keys| ==> Get(row, keys[i]).None?) ==> GetChain(row, keys, default) == default
    ensures forall i :: 0 <= i < |keys| && Get(row, keys[i]).Some? && (forall j :: 0 <= j < i ==> Get(row, keys[j]).None?)
              ==> GetChain(row, keys, default) == Get(row, keys[i]).value
  {
    if keys != [] {
      GetChainFirstPresent(row, keys[1..], default);
      assert forall i :: 1 <= i < |keys| ==> keys[1..][i - 1] == keys[i];
    }
  }

  // ---------------------------------------------------------------- numbered skill columns

  /** A skill as read from a row, before any schema validation: the level is free text. */
  datatype RawSkill = RawSkill(name: string, level: string)

  function SkillKey(j: nat): string { "Skill" + Text.NatToString(j) }
  function LevelKey(j: nat): string { SkillKey(j) + "_Level" }

  /** The skill in column `SkillJ`, if that column is truthy; its level is `SkillJ_Level || 'Beginner'`. */
  function SkillAt(row: Row, j: nat): Option<RawSkill> {
    if Truthy(row, SkillKey(j)) then
      Some(RawSkill(Get(row, SkillKey(j)).value, FirstTruthy(row, [LevelKey(j)], "Beginner")))
    else None
  }

  /** The skills of columns 1..n, in column order, skipping the falsy ones. */
  function SkillsUpTo(row: Row, n: nat): seq<RawSkill> {
    if n == 0 then []
    else SkillsUpTo(row, n - 1) + (if SkillAt(row, n).Some? then [SkillAt(row, n).value] else [])
  }

  lemma {:induction false} SkillsUpToBound(row: Row, n: nat)
    ensures |SkillsUpTo(row, n)| <= n
  {
    if n > 0 { SkillsUpToBound(row, n - 1); }
  }

  /** A skill is extracted exactly when some column `SkillJ` (1 <= J <= n) is truthy and yields it. */
  lemma {:induction false} SkillsUpToMembers(row: Row, n: nat, s: RawSkill)
    ensures s in SkillsUpTo(row, n) <==> exists j :: 1 <= j <= n && SkillAt(row, j) == Some(s)
  {
    if n > 0 {
      SkillsUpToMembers(row, n - 1, s);
      if s in SkillsUpTo(row, n) && s !in SkillsUpTo(row, n - 1) {
        assert SkillAt(row, n) == Some(s);
      }
    }
  }

  /** Every extracted skill has a non-empty name and a non-empty level. */
  lemma {:induction false} SkillsUpToNonEmpty(row: Row, n: nat)
    ensures forall k :: 0 <= k < |SkillsUpTo(row, n)| ==>
              SkillsUpTo(row, n)[k].name != "" && SkillsUpTo(row, n)[k].level != ""
  {
    if n > 0 { SkillsUpToNonEmpty(row, n - 1); }
  }

  /** The `for (let j = 1; j <= 5; j++)` loop that pushes one skill per truthy `SkillJ`. */
  method ExtractSkills(row: Row) returns (skills: seq<RawSkill>)
    ensures skills == SkillsUpTo(row, 5)
    ensures |skills| <= 5
  {
    skills := [];
    var j := 1;
    while j <= 5
      invariant 1 <= j <= 6
      invariant skills == SkillsUpTo(row, j - 1)
    {
      var key := SkillKey(j);
      if Truthy(row, key) {
        var level := FirstTruthy(row, [LevelKey(j)], "Beginner");
        skills := skills + [RawSkill(Get(row, key).value, level)];
      }
      j := j + 1;
    }
    SkillsUpToBound(row, 5);
  }
}
