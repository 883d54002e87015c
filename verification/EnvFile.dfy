/**
The per-instance environment file (`KEY=value` lines) that systemd reads before
it launches Logstash, and the line editor the agent uses on it.
*/
module EnvFile {
  import opened Options

  const BINARY_KEY: string := "LOGSTASH_BINARY"
  const JVM_OPTS_KEY: string := "LS_JVM_OPTS"
  const KEYSTORE_PASS_KEY: string := "LOGSTASH_KEYSTORE_PASS"

  /** A line assigns `key` when it starts with `key=`. */
  predicate Assigns(line: string, key: string) {
    key + "=" <= line
  }

  /** Every line that does not assign `key`, in the original order. */
  function WithoutKey(lines: seq<string>, key: string): seq<string> {
    if lines == [] then []
    else if Assigns(lines[0], key) then WithoutKey(lines[1..], key)
    else [lines[0]] + WithoutKey(lines[1..], key)
  }

  /** Set (`Some`) or remove (`None`) the assignment of `key`. */
  function SetVar(lines: seq<string>, key: string, value: Option<string>): seq<string> {
    match value
    case None => WithoutKey(lines, key)
    case Some(v) => WithoutKey(lines, key) + [key + "=" + v]
  }

  /** The value systemd sees: a later assignment overrides an earlier one. */
  function Lookup(lines: seq<string>, key: string): Option<string> {
    if lines == [] then None
    else
      var line := lines[|lines| - 1];
      if Assigns(line, key) then Some(line[|key| + 1..]) else Lookup(lines[..|lines| - 1], key)
  }

  lemma {:induction false} WithoutKeyHasNone(lines: seq<string>, key: string)
    ensures forall line | line in WithoutKey(lines, key) :: !Assigns(line, key)
  {
    if lines != [] {
      WithoutKeyHasNone(lines[1..], key);
    }
  }

  lemma {:induction false} LookupNone(lines: seq<string>, key: string)
    requires forall line | line in lines :: !Assigns(line, key)
    ensures Lookup(lines, key) == None
  {
    if lines != [] {
      LookupNone(lines[..|lines| - 1], key);
    }
  }

  /** Reading back what was written: the new value, or nothing after a removal. */
  lemma SetThenLookup(lines: seq<string>, key: string, value: Option<string>)
    ensures Lookup(SetVar(lines, key, value), key) == value
  {
    match value
    case None =>
      WithoutKeyHasNone(lines, key);
      LookupNone(WithoutKey(lines, key), key);
    case Some(v) =>
      var line := key + "=" + v;
      assert key + "=" == line[..|key| + 1];
      assert line[|key| + 1..] == v;
  }

  lemma {:induction false} WithoutKeyIsStable(lines: seq<string>, key: string)
    requires forall line | line in lines :: !Assigns(line, key)
    ensures WithoutKey(lines, key) == lines
  {
    if lines != [] {
      WithoutKeyIsStable(lines[1..], key);
    }
  }

  lemma {:induction false} WithoutKeyAppend(a: seq<string>, b: seq<string>, key: string)
    ensures WithoutKey(a + b, key) == WithoutKey(a, key) + WithoutKey(b, key)
  {
    if a == [] {
      assert a + b == b;
    } else {
      assert (a + b)[1..] == a[1..] + b;
      WithoutKeyAppend(a[1..], b, key);
    }
  }

  /** Every other line survives verbatim and in order. */
  lemma OtherLinesVerbatim(lines: seq<string>, key: string, value: Option<string>)
    ensures WithoutKey(SetVar(lines, key, value), key) == WithoutKey(lines, key)
  {
    var kept := WithoutKey(lines, key);
    WithoutKeyHasNone(lines, key);
    WithoutKeyIsStable(kept, key);
    if value.Some? {
      var line := key + "=" + value.value;
      assert key + "=" == line[..|key| + 1];
      WithoutKeyAppend(kept, [line], key);
      assert WithoutKey([line], key) == [];
    }
  }

  /** Only what assigns `key` differs: every other line stands as it did, and `key` has the value. */
  ghost predicate Edited(was: seq<string>, now: seq<string>, key: string, value: Option<string>) {
    && WithoutKey(now, key) == WithoutKey(was, key)
    && Lookup(now, key) == value
    && forall line | line in now && Assigns(line, key) :: value.Some? && line == key + "=" + value.value
  }

  lemma SetVarEdits(lines: seq<string>, key: string, value: Option<string>)
    ensures Edited(lines, SetVar(lines, key, value), key, value)
  {
    OtherLinesVerbatim(lines, key, value);
    SetThenLookup(lines, key, value);
    WithoutKeyHasNone(lines, key);
  }

  /** A file that does not assign the key needs no edit to remove it. */
  lemma NothingToRemove(lines: seq<string>, key: string)
    requires WithoutKey(lines, key) == lines
    ensures Edited(lines, lines, key, None)
  {
    WithoutKeyHasNone(lines, key);
    LookupNone(lines, key);
  }

  /** A line assigns at most one key. */
  lemma AssignsOneKey(line: string, key: string, other: string)
    requires '=' !in key && '=' !in other
    requires Assigns(line, key) && Assigns(line, other)
    ensures key == other
  {
    var k, o := key + "=", other + "=";
    assert k[|key|] == '=' && o[|other|] == '=';
    assert forall i | 0 <= i < |key| :: key[i] == k[i] == line[i];
    assert forall i | 0 <= i < |other| :: other[i] == o[i] == line[i];
  }

  lemma {:induction false} WithoutKeyKeepsOthers(lines: seq<string>, key: string, other: string)
    requires key != other && '=' !in key && '=' !in other
    ensures Lookup(WithoutKey(lines, key), other) == Lookup(lines, other)
  {
    if lines != [] {
      var init, line := lines[..|lines| - 1], lines[|lines| - 1];
      assert lines == init + [line];
      WithoutKeyKeepsOthers(init, key, other);
      WithoutKeyAppend(init, [line], key);
      if Assigns(line, key) {
        if Assigns(line, other) {
          AssignsOneKey(line, key, other);
        }
        assert WithoutKey([line], key) == [];
        assert WithoutKey(init, key) + [] == WithoutKey(init, key);
      } else {
        assert WithoutKey([line], key) == [line];
        assert (WithoutKey(init, key) + [line])[..|WithoutKey(init, key)|] == WithoutKey(init, key);
      }
    }
  }

  /** Editing one variable leaves the value of every other variable alone. */
  lemma OtherKeysKept(lines: seq<string>, key: string, value: Option<string>, other: string)
    requires key != other && '=' !in key && '=' !in other
    ensures Lookup(SetVar(lines, key, value), other) == Lookup(lines, other)
  {
    WithoutKeyKeepsOthers(lines, key, other);
    if value.Some? {
      var line := key + "=" + value.value;
      var kept := WithoutKey(lines, key);
      assert key + "=" == line[..|key| + 1];
      if Assigns(line, other) {
        AssignsOneKey(line, key, other);
      }
      assert (kept + [line])[..|kept|] == kept;
    }
  }

  // ----- an edit that dies half way -----

  /** What is in the file when `k` lines and `c` characters of the next one are written. */
  function Written(lines: seq<string>, k: nat, c: nat): seq<string> {
    if k >= |lines| then lines
    else if c == 0 then lines[..k]
    else lines[..k] + [if c < |lines[k]| then lines[k][..c] else lines[k]]
  }

  ghost predicate AssignedOnceAt(lines: seq<string>, key: string, p: nat) {
    && p < |lines| && Assigns(lines[p], key)
    && forall i | 0 <= i < |lines| && i != p :: !Assigns(lines[i], key)
  }

  lemma {:induction false} LookupLast(lines: seq<string>, key: string, p: nat)
    requires AssignedOnceAt(lines, key, p)
    ensures Lookup(lines, key) == Some(lines[p][|key| + 1..])
    decreases |lines|
  {
    if p < |lines| - 1 {
      LookupLast(lines[..|lines| - 1], key, p);
    }
  }

  /**
  A rewrite cut anywhere leaves the value of a variable that is assigned once if and only if
  its line is written completely.
  */
  lemma CutKeepsExactlyWhen(lines: seq<string>, key: string, p: nat, k: nat, c: nat)
    requires AssignedOnceAt(lines, key, p) && k <= |lines|
    ensures Lookup(Written(lines, k, c), key) == Lookup(lines, key) <==> p < k || (p == k && |lines[p]| <= c)
  {
    var cut := Written(lines, k, c);
    LookupLast(lines, key, p);
    assert forall i | 0 <= i < |cut| :: cut[i] <= lines[i];
    assert forall i | 0 <= i < |cut| && i != p :: !Assigns(cut[i], key);
    if p < |cut| && Assigns(cut[p], key) {
      LookupLast(cut, key, p);
      assert cut[p] == lines[p] <==> |cut[p]| == |lines[p]|;
      assert |cut[p][|key| + 1..]| == |cut[p]| - |key| - 1;
      assert cut[p] == lines[p] <==> p < k || (p == k && |lines[p]| <= c);
    } else {
      assert forall line | line in cut :: !Assigns(line, key);
      LookupNone(cut, key);
    }
  }
}
