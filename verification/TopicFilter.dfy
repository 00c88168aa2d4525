/** MQTT topic filters: the matching loop against sections 4.7.1.2 and 4.7.1.3
    of MQTT 3.1.1 (the `$` rule of section 4.7.2 is not applied). */
module TopicFilter {
  import Text

  type Levels = seq<string>

  function LevelsOf(s: string): (r: Levels)
    ensures r != []
  {
    Text.Split(s, '/')
  }

  predicate LevelMatches(f: string, t: string) { f == "+" || f == t }

  /** Matching level by level from the left; `#` takes everything that is left. */
  predicate Matches(f: Levels, t: Levels) {
    if f == [] then t == []
    else if f[0] == "#" then true
    else t != [] && LevelMatches(f[0], t[0]) && Matches(f[1..], t[1..])
  }

  lemma {:induction false} MatchesItself(f: Levels)
    ensures Matches(f, f)
  {
    if f == [] {
    } else {
      MatchesItself(f[1..]);
    }
  }

  /** `topic_matches`, for every filter, well-formed or not. */
  method TopicMatches(filter: string, topic: string) returns (r: bool)
    ensures r == Matches(LevelsOf(filter), LevelsOf(topic))
  {
    var f, t := LevelsOf(filter), LevelsOf(topic);
    if filter == "#" || filter == topic {
      MatchesItself(f);
      HashLevels();
      return true;
    }
    var i := 0;
    while i < |f|
      invariant 0 <= i <= |f| && i <= |t|
      invariant Matches(f, t) == Matches(f[i..], t[i..])
    {
      assert f[i..][1..] == f[i + 1..];
      if f[i] == "#" {
        return true;
      }
      if i >= |t| {
        return false;
      }
      assert t[i..][1..] == t[i + 1..];
      if f[i] != "+" && f[i] != t[i] {
        return false;
      }
      if i + 1 == |t| && i + 2 == |f| && f[i + 1] == "#" {
        return true;
      }
      i := i + 1;
    }
    return |f| == |t|;
  }

  lemma HashLevels()
    ensures LevelsOf("#") == ["#"]
  {
    assert "#"[1..] == "" && "#" == ['#'] + [];
  }

  /** Section 4.7.1.2: a multi-level wildcard may only be the last level. */
  predicate WellFormedFilter(f: Levels) {
    f != [] && forall i :: 0 <= i < |f| - 1 ==> f[i] != "#"
  }

  /** Sections 4.7.1.2 and 4.7.1.3, stated on positions: without a final `#`
      the level counts agree and every level matches; with one, the levels
      before it match, and the topic may end there (its parent) or go on. */
  predicate MqttMatches(f: Levels, t: Levels)
    requires WellFormedFilter(f)
  {
    var n := |f| - 1;
    if f[n] == "#" then
      |t| >= n && forall i :: 0 <= i < n ==> LevelMatches(f[i], t[i])
    else
      |t| == |f| && forall i :: 0 <= i < |f| ==> LevelMatches(f[i], t[i])
  }

  /** The matching loop implements the standard on every well-formed filter. */
  lemma {:induction false} MatchesStandard(f: Levels, t: Levels)
    requires WellFormedFilter(f)
    ensures Matches(f, t) <==> MqttMatches(f, t)
    decreases |f|
  {
    if f[0] == "#" || t == [] {
    } else {
      if |f| == 1 {
        assert f[1..] == [];
      } else {
        MatchesStandard(f[1..], t[1..]);
        var n := |f| - 1;
        assert f[1..][n - 1] == f[n];
        if LevelMatches(f[0], t[0]) {
          if MqttMatches(f[1..], t[1..]) {
            forall i | 0 < i < |f| && (i < n || f[n] != "#") ensures LevelMatches(f[i], t[i]) {
              assert LevelMatches(f[1..][i - 1], t[1..][i - 1]);
            }
          }
          if MqttMatches(f, t) {
            forall i | 0 <= i < |f| - 1 && (i < n - 1 || f[n] != "#")
              ensures LevelMatches(f[1..][i], t[1..][i])
            {
              assert LevelMatches(f[i + 1], t[i + 1]);
            }
          }
        }
      }
    }
  }

  /** Widening a filter keeps every match: any level may become `+`, and any
      suffix `#`. */
  lemma {:induction false} WideningLevel(f: Levels, i: nat, t: Levels)
    requires i < |f| && f[i] != "#" && Matches(f, t)
    ensures Matches(f[i := "+"], t)
    decreases |f|
  {
    var g := f[i := "+"];
    if i == 0 {
      assert g[1..] == f[1..];
    } else if f[0] != "#" {
      assert g[1..] == f[1..][i - 1 := "+"];
      WideningLevel(f[1..], i - 1, t[1..]);
    }
  }

  lemma {:induction false} WideningSuffix(f: Levels, i: nat, t: Levels)
    requires i <= |f| && Matches(f, t)
    ensures Matches(f[..i] + ["#"], t)
    decreases |f|
  {
    var g := f[..i] + ["#"];
    if i == 0 || f[0] == "#" {
    } else {
      assert g[1..] == f[1..][..i - 1] + ["#"];
      WideningSuffix(f[1..], i - 1, t[1..]);
    }
  }

  /** Levels are what stands between slashes. */
  lemma LevelsExactly(a: string, b: string)
    ensures LevelsOf(a + "/" + b) == LevelsOf(a) + LevelsOf(b)
    ensures '/' !in a ==> LevelsOf(a) == [a]
  {
    Text.SplitJoin(a, '/', b);
    if '/' !in a {
      Text.SplitWithout(a, '/');
    }
  }
}
