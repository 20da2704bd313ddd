/** The command-line hand-off of `src/main.cc`: the words after `--` become
    the command text, and the inherited environment fills the shell's global
    variable table. */
module Cli {
  import opened Wrappers
  import opened Text
  import opened Executables

  const SEPARATOR: string := "--"

  /** The first argument from `from` on (below `argc`) that is exactly `--`;
      the program name, argument 0, is never looked at. */
  function Separator(argv: seq<string>, argc: nat, from: nat := 1): (r: Option<nat>)
    requires argc <= |argv| && 1 <= from
    ensures r.Some? ==> 1 <= from <= r.value < argc && argv[r.value] == SEPARATOR
    ensures r.Some? ==> forall k :: from <= k < r.value ==> argv[k] != SEPARATOR
    ensures r.None? ==> forall k :: from <= k < argc ==> argv[k] != SEPARATOR
    decreases argc - from
  {
    if from >= argc then None
    else if argv[from] == SEPARATOR then Some(from)
    else Separator(argv, argc, from + 1)
  }

  /** Parts each followed by a space. */
  function Terminated(parts: seq<string>): string
  {
    if parts == [] then [] else parts[0] + " " + Terminated(parts[1..])
  }

  lemma {:induction false} TerminatedSnoc(parts: seq<string>, x: string)
    ensures Terminated(parts + [x]) == Terminated(parts) + x + " "
    decreases |parts|
  {
    if parts == [] {
      assert [] + [x] == [x];
      assert [x][1..] == [];
    } else {
      assert (parts + [x])[0] == parts[0] && (parts + [x])[1..] == parts[1..] + [x];
      TerminatedSnoc(parts[1..], x);
    }
  }

  lemma {:induction false} TerminatedJoin(parts: seq<string>, x: string)
    ensures Terminated(parts) + x == Join(parts + [x], " ")
    decreases |parts|
  {
    if parts == [] {
      assert [] + [x] == [x];
    } else {
      assert (parts + [x])[0] == parts[0] && (parts + [x])[1..] == parts[1..] + [x];
      TerminatedJoin(parts[1..], x);
    }
  }

  /** `get_commands`, `argc` being passed by reference: returns the arguments
      after the first `--`, joined by single spaces, and cuts `argc` back to
      the position of that `--`; without one, the text is empty and `argc`
      unchanged. */
  method GetCommands(argc: nat, argv: seq<string>) returns (commands: string, newArgc: nat)
    requires argc <= |argv|
    ensures Separator(argv, argc).None? ==> commands == [] && newArgc == argc
    ensures Separator(argv, argc).Some? ==>
      var i := Separator(argv, argc).value;
      commands == Join(argv[i + 1..argc], " ") && newArgc == i
  {
    commands := [];
    newArgc := argc;
    var i := 1;
    while i < argc
      invariant 1 <= i && Separator(argv, argc) == Separator(argv, argc, i)
    {
      if argv[i] != SEPARATOR {
        i := i + 1;
        continue;
      }
      var j := i + 1;
      while j < argc
        invariant i + 1 <= j <= argc
        invariant j < argc ==> commands == Terminated(argv[i + 1..j])
        invariant j == argc ==> commands == Join(argv[i + 1..argc], " ")
      {
        assert argv[i + 1..j + 1] == argv[i + 1..j] + [argv[j]];
        TerminatedJoin(argv[i + 1..j], argv[j]);
        TerminatedSnoc(argv[i + 1..j], argv[j]);
        commands := commands + argv[j];
        if j != argc - 1 {
          commands := commands + " ";
        }
        j := j + 1;
      }
      if i + 1 == argc {
        assert argv[i + 1..argc] == [];
      }
      newArgc := i;
      return;
    }
  }

  /** When no word after `--` holds a space, splitting the command text at
      spaces gives the words back. */
  lemma CommandsWords(argv: seq<string>, argc: nat, i: nat)
    requires argc <= |argv| && Separator(argv, argc) == Some(i) && i + 1 < argc
    requires forall k :: i < k < argc ==> ' ' !in argv[k]
    ensures Split(Join(argv[i + 1..argc], " "), ' ') == argv[i + 1..argc]
  {
    SplitJoin(argv[i + 1..argc], ' ');
  }

  /** One `KEY=VALUE` entry split at its first `=`; an entry without one gives
      nothing. */
  function EnvEntry(entry: string): (r: Option<(string, string)>)
    ensures r.None? <==> '=' !in entry
    ensures r.Some? ==> r.value.0 + "=" + r.value.1 == entry && '=' !in r.value.0
  {
    match FindFrom(entry, '=', 0)
    case None => None
    case Some(idx) =>
      assert entry == entry[..idx] + "=" + entry[idx + 1..];
      assert forall k :: 0 <= k < idx ==> entry[..idx][k] == entry[k];
      Some((entry[..idx], entry[idx + 1..]))
  }

  /** The pairs the entries give, in order. */
  function EnvPairs(entries: seq<string>): seq<(string, string)>
  {
    if entries == [] then []
    else
      var n := |entries| - 1;
      EnvPairs(entries[..n]) + (match EnvEntry(entries[n]) case None => [] case Some(kv) => [kv])
  }

  /** The table after `fill_global_env`, starting from `vars`. */
  function Filled(vars: map<string, string>, entries: seq<string>): map<string, string>
  {
    if entries == [] then vars
    else
      var n := |entries| - 1;
      var before := Filled(vars, entries[..n]);
      match EnvEntry(entries[n])
      case None => before
      case Some((k, v)) => Emplace(before, k, v)
  }

  /** From an empty table the fill is the first-wins map of the entries'
      pairs. */
  lemma {:induction false} FilledIsFirstWins(entries: seq<string>)
    ensures Filled(map[], entries) == FirstWins(EnvPairs(entries))
    decreases |entries|
  {
    if entries != [] {
      var n := |entries| - 1;
      FilledIsFirstWins(entries[..n]);
      var pairs := EnvPairs(entries[..n]);
      match EnvEntry(entries[n])
      case None =>
        assert EnvPairs(entries) == pairs + [];
        assert pairs + [] == pairs;
      case Some(kv) =>
        assert EnvPairs(entries) == pairs + [kv];
        assert (pairs + [kv])[..|pairs|] == pairs;
    }
  }

  /** Every pair comes from an entry with `=`, split at its first `=`, in
      order, and every such entry gives one. */
  lemma {:induction false} EnvPairsFromEntries(entries: seq<string>)
    ensures forall p :: p in EnvPairs(entries) ==> exists e :: e in entries && EnvEntry(e) == Some(p)
    ensures forall e :: e in entries && '=' in e ==> EnvEntry(e).value in EnvPairs(entries)
    decreases |entries|
  {
    if entries != [] {
      var n := |entries| - 1;
      EnvPairsFromEntries(entries[..n]);
      forall p | p in EnvPairs(entries)
        ensures exists e :: e in entries && EnvEntry(e) == Some(p)
      {
        if p in EnvPairs(entries[..n]) {
          var e :| e in entries[..n] && EnvEntry(e) == Some(p);
          assert e in entries;
        } else {
          assert entries[n] in entries;
        }
      }
      forall e | e in entries && '=' in e
        ensures EnvEntry(e).value in EnvPairs(entries)
      {
        if e in entries[..n] {
        } else {
          assert e == entries[n];
        }
      }
    }
  }

  /** The keys an entry with `=` names. */
  predicate Names(e: string, k: string)
  {
    var kv := EnvEntry(e); kv.Some? && kv.value.0 == k
  }

  /** A key is in the filled table exactly when some entry with `=` names it. */
  lemma FilledKeys(entries: seq<string>, k: string)
    ensures k in Filled(map[], entries) <==> exists e :: e in entries && Names(e, k)
  {
    FilledIsFirstWins(entries);
    if k in Filled(map[], entries) {
      FilledKeyNamed(entries, k);
    }
    if exists e :: e in entries && Names(e, k) {
      var e :| e in entries && Names(e, k);
      NamedKeyFilled(entries, e);
    }
  }

  lemma FilledKeyNamed(entries: seq<string>, k: string)
    requires k in FirstWins(EnvPairs(entries))
    ensures exists e :: e in entries && Names(e, k)
  {
    var pairs := EnvPairs(entries);
    FirstWinsKeys(pairs);
    var i :| 0 <= i < |pairs| && pairs[i].0 == k;
    EnvPairsFromEntries(entries);
    assert pairs[i] in pairs;
    var e :| e in entries && EnvEntry(e) == Some(pairs[i]);
    assert Names(e, k);
  }

  lemma NamedKeyFilled(entries: seq<string>, e: string)
    requires e in entries && EnvEntry(e).Some?
    ensures EnvEntry(e).value.0 in FirstWins(EnvPairs(entries))
  {
    var pairs := EnvPairs(entries);
    EnvPairsFromEntries(entries);
    var p := EnvEntry(e).value;
    assert p in pairs;
    var i :| 0 <= i < |pairs| && pairs[i] == p;
    FirstWinsKeys(pairs);
  }

  /** On a repeated key the first entry's value stays. */
  lemma FilledFirst(entries: seq<string>, i: nat)
    requires i < |entries| && EnvEntry(entries[i]).Some?
    requires forall j :: 0 <= j < i && EnvEntry(entries[j]).Some? ==> EnvEntry(entries[j]).value.0 != EnvEntry(entries[i]).value.0
    ensures EnvEntry(entries[i]).value.0 in Filled(map[], entries)
    ensures Filled(map[], entries)[EnvEntry(entries[i]).value.0] == EnvEntry(entries[i]).value.1
  {
    FilledIsFirstWins(entries);
    FirstPairOfEntry(entries, i);
  }

  /** An entry whose key no earlier entry has gives the first pair with that key. */
  lemma {:induction false} FirstPairOfEntry(entries: seq<string>, i: nat)
    requires i < |entries| && EnvEntry(entries[i]).Some?
    requires forall j :: 0 <= j < i && EnvEntry(entries[j]).Some? ==> EnvEntry(entries[j]).value.0 != EnvEntry(entries[i]).value.0
    ensures var pairs := EnvPairs(entries); var (k, v) := EnvEntry(entries[i]).value;
      k in FirstWins(pairs) && FirstWins(pairs)[k] == v
  {
    var (k, v) := EnvEntry(entries[i]).value;
    var pre := EnvPairs(entries[..i]);
    EnvPairsFromEntries(entries[..i]);
    EnvPairsPrefix(entries, i);
    var pairs := EnvPairs(entries);
    assert pairs[|pre|] == (k, v);
    forall j | 0 <= j < |pre|
      ensures pairs[j].0 != k
    {
      assert pre[j] in pre;
      var e :| e in entries[..i] && EnvEntry(e) == Some(pre[j]);
      var at :| 0 <= at < i && entries[..i][at] == e;
    }
    FirstWinsFirst(pairs);
  }

  /** The pairs of the first `i + 1` entries extend those of the first `i`,
      by the pair of entry `i`, and all later pairs come after. */
  lemma {:induction false} EnvPairsPrefix(entries: seq<string>, i: nat)
    requires i < |entries| && EnvEntry(entries[i]).Some?
    ensures var pre := EnvPairs(entries[..i]); var pairs := EnvPairs(entries);
      |pre| < |pairs| && pairs[..|pre|] == pre && pairs[|pre|] == EnvEntry(entries[i]).value
    decreases |entries|
  {
    var n := |entries| - 1;
    assert entries[..n + 1] == entries;
    if i == n {
      assert EnvPairs(entries) == EnvPairs(entries[..n]) + [EnvEntry(entries[n]).value];
    } else {
      assert entries[..n][..i] == entries[..i] && entries[..n][i] == entries[i];
      EnvPairsPrefix(entries[..n], i);
      var tail := match EnvEntry(entries[n]) case None => [] case Some(kv) => [kv];
      assert EnvPairs(entries) == EnvPairs(entries[..n]) + tail;
    }
  }

  /** `cchell::shared::envp`, the table of variables the shell starts with. */
  class GlobalEnv {
    var vars: map<string, string>

    constructor()
      ensures vars == map[]
    {
      vars := map[];
    }

    /** `fill_global_env`: each entry with `=` is split at its first `=` and
        emplaced, so an existing key keeps its value. */
    method Fill(envp: seq<string>)
      modifies this
      ensures vars == Filled(old(vars), envp)
    {
      for p := 0 to |envp|
        invariant vars == Filled(old(vars), envp[..p])
      {
        assert envp[..p + 1][..p] == envp[..p];
        var env := envp[p];
        var idx := FindFrom(env, '=', 0);
        if idx.Some? {
          vars := Emplace(vars, env[..idx.value], env[idx.value + 1..]);
        }
      }
      assert envp[..|envp|] == envp;
    }
  }
}
