/** The map from claims to schedulers (pkg/csi/interface.go). */
module SchedulerMap {
  function Key(namespace: string, name: string): string {
    namespace + "/" + name
  }

  /** The joined key determines the claim when namespaces hold no slash. */
  lemma KeyInjective(ns1: string, name1: string, ns2: string, name2: string)
    requires '/' !in ns1 && '/' !in ns2
    ensures Key(ns1, name1) == Key(ns2, name2) <==> ns1 == ns2 && name1 == name2
  {
    KeyCollision(ns1, name1, ns2, name2);
    forall x ensures ns1 != Key(ns2, x) && ns2 != Key(ns1, x) {
      assert Key(ns2, x)[|ns2|] == '/' && Key(ns1, x)[|ns1|] == '/';
    }
  }

  /** One claim's namespace runs on into the other's name: ns1 is ns2, a slash and x, and name2 is x, a
      slash and name1. */
  ghost predicate RunsInto(ns1: string, name1: string, ns2: string, name2: string) {
    exists x :: ns1 == Key(ns2, x) && name2 == Key(x, name1)
  }

  lemma LongerNamespaceRunsInto(ns1: string, name1: string, ns2: string, name2: string)
    requires Key(ns1, name1) == Key(ns2, name2) && |ns1| > |ns2|
    ensures RunsInto(ns1, name1, ns2, name2)
  {
    var key, k := Key(ns1, name1), |ns2|;
    var x := ns1[k + 1..];
    assert key[k] == '/' && ns1[k] == key[k] && ns1[..k] == key[..k] == ns2;
    assert ns1 == Key(ns2, x);
    assert key[k + 1..] == Key(x, name1) && key[k + 1..] == name2;
  }

  lemma RunsIntoCollides(ns1: string, name1: string, ns2: string, name2: string)
    requires RunsInto(ns1, name1, ns2, name2)
    ensures Key(ns1, name1) == Key(ns2, name2)
  {
    var x :| ns1 == Key(ns2, x) && name2 == Key(x, name1);
    assert Key(Key(ns2, x), name1) == Key(ns2, Key(x, name1));
  }

  /** Two claims share a key exactly when they are equal or one runs into the other. */
  lemma KeyCollision(ns1: string, name1: string, ns2: string, name2: string)
    ensures Key(ns1, name1) == Key(ns2, name2) <==>
      (ns1 == ns2 && name1 == name2) || RunsInto(ns1, name1, ns2, name2) || RunsInto(ns2, name2, ns1, name1)
  {
    if Key(ns1, name1) == Key(ns2, name2) {
      if |ns1| > |ns2| {
        LongerNamespaceRunsInto(ns1, name1, ns2, name2);
      } else if |ns2| > |ns1| {
        LongerNamespaceRunsInto(ns2, name2, ns1, name1);
      } else {
        var key := Key(ns1, name1);
        assert key[..|ns1|] == ns1 && key[..|ns2|] == ns2;
        assert key[|ns1| + 1..] == name1 && key[|ns2| + 1..] == name2;
      }
    }
    if RunsInto(ns1, name1, ns2, name2) { RunsIntoCollides(ns1, name1, ns2, name2); }
    if RunsInto(ns2, name2, ns1, name1) { RunsIntoCollides(ns2, name2, ns1, name1); }
  }

  /** So with slashes allowed every claim (ns, a/b) shares its key with the different claim (ns/a, b). */
  lemma SlashCollision(ns: string, a: string, b: string)
    ensures Key(ns, a + "/" + b) == Key(ns + "/" + a, b) && (ns, a + "/" + b) != (ns + "/" + a, b)
  {
    assert |ns + "/" + a| > |ns|;
    assert RunsInto(Key(ns, a), b, ns, Key(a, b));
    KeyCollision(Key(ns, a), b, ns, Key(a, b));
  }

  datatype Op = Add(ns: string, name: string, scheduler: string) | Get(ns: string, name: string) | Remove(ns: string, name: string)

  class PvcPodSchedulerMap {
    var info: map<string, string>

    constructor ()
      ensures info == map[]
    {
      info := map[];
    }

    method Add(ns: string, name: string, scheduler: string)
      modifies this
      ensures info == StringApply(old(info), Op.Add(ns, name, scheduler))
    {
      info := info[ns + "/" + name := scheduler];
    }

    method Get(ns: string, name: string) returns (scheduler: string)
      ensures scheduler == StringAnswer(info, Op.Get(ns, name))
    {
      scheduler := if ns + "/" + name in info then info[ns + "/" + name] else "";
    }

    method Remove(ns: string, name: string)
      modifies this
      ensures info == StringApply(old(info), Op.Remove(ns, name))
    {
      info := info - {ns + "/" + name};
    }
  }

  // ---------- the simple specification ----------

  type Claims = map<(string, string), string>

  function Apply(m: Claims, op: Op): Claims {
    match op
    case Add(ns, name, scheduler) => m[(ns, name) := scheduler]
    case Get(_, _) => m
    case Remove(ns, name) => m - {(ns, name)}
  }

  function Answer(m: Claims, op: Op): string {
    if op.Get? && (op.ns, op.name) in m then m[(op.ns, op.name)] else ""
  }

  function Answers(m: Claims, ops: seq<Op>): seq<string>
    decreases |ops|
  {
    if ops == [] then [] else [Answer(m, ops[0])] + Answers(Apply(m, ops[0]), ops[1..])
  }

  /** The string map stands for the map on pairs. */
  ghost predicate Represents(info: map<string, string>, m: Claims) {
    && (forall p :: p in m ==> '/' !in p.0 && Key(p.0, p.1) in info && info[Key(p.0, p.1)] == m[p])
    && (forall k :: k in info ==> exists p :: p in m && k == Key(p.0, p.1))
  }

  lemma RepresentsAdd(info: map<string, string>, m: Claims, ns: string, name: string, scheduler: string)
    requires Represents(info, m) && '/' !in ns
    ensures Represents(info[Key(ns, name) := scheduler], m[(ns, name) := scheduler])
  {
    var info', m' := info[Key(ns, name) := scheduler], m[(ns, name) := scheduler];
    forall p | p in m' ensures '/' !in p.0 && Key(p.0, p.1) in info' && info'[Key(p.0, p.1)] == m'[p] {
      KeyInjective(if p in m then p.0 else ns, p.1, ns, name);
    }
    forall k | k in info' ensures exists p :: p in m' && k == Key(p.0, p.1) {
      if k in info {
        var p :| p in m && k == Key(p.0, p.1);
        assert p in m';
      } else {
        assert (ns, name) in m';
      }
    }
  }

  lemma RepresentsRemove(info: map<string, string>, m: Claims, ns: string, name: string)
    requires Represents(info, m) && '/' !in ns
    ensures Represents(info - {Key(ns, name)}, m - {(ns, name)})
  {
    var info', m' := info - {Key(ns, name)}, m - {(ns, name)};
    forall p | p in m' ensures '/' !in p.0 && Key(p.0, p.1) in info' && info'[Key(p.0, p.1)] == m'[p] {
      KeyInjective(p.0, p.1, ns, name);
    }
    forall k | k in info' ensures exists p :: p in m' && k == Key(p.0, p.1) {
      var p :| p in m && k == Key(p.0, p.1);
      assert p in m';
    }
  }

  lemma RepresentsGet(info: map<string, string>, m: Claims, ns: string, name: string)
    requires Represents(info, m) && '/' !in ns
    ensures (ns, name) in m <==> Key(ns, name) in info
    ensures (ns, name) in m ==> info[Key(ns, name)] == m[(ns, name)]
  {
    if Key(ns, name) in info {
      var p :| p in m && Key(ns, name) == Key(p.0, p.1);
      KeyInjective(ns, name, p.0, p.1);
    }
  }

  // ---------- the string map refines it ----------

  /** What the three methods do to the string map and answer. */
  function StringApply(info: map<string, string>, op: Op): map<string, string> {
    match op
    case Add(ns, name, scheduler) => info[Key(ns, name) := scheduler]
    case Get(_, _) => info
    case Remove(ns, name) => info - {Key(ns, name)}
  }

  function StringAnswer(info: map<string, string>, op: Op): string {
    if op.Get? && Key(op.ns, op.name) in info then info[Key(op.ns, op.name)] else ""
  }

  function StringAnswers(info: map<string, string>, ops: seq<Op>): seq<string>
    decreases |ops|
  {
    if ops == [] then [] else [StringAnswer(info, ops[0])] + StringAnswers(StringApply(info, ops[0]), ops[1..])
  }

  lemma StepRefines(info: map<string, string>, m: Claims, op: Op)
    requires Represents(info, m) && '/' !in op.ns
    ensures StringAnswer(info, op) == Answer(m, op)
    ensures Represents(StringApply(info, op), Apply(m, op))
  {
    match op
    case Add(ns, name, scheduler) => RepresentsAdd(info, m, ns, name, scheduler);
    case Get(ns, name) => RepresentsGet(info, m, ns, name);
    case Remove(ns, name) => RepresentsRemove(info, m, ns, name);
  }

  /** For every sequence of operations with slash-free namespaces the object answers as a map keyed by
      the pair of namespace and name. */
  lemma {:induction false} BehavesAsPairMap(info: map<string, string>, m: Claims, ops: seq<Op>)
    requires Represents(info, m) && forall i :: 0 <= i < |ops| ==> '/' !in ops[i].ns
    ensures StringAnswers(info, ops) == Answers(m, ops)
    decreases |ops|
  {
    if ops != [] {
      StepRefines(info, m, ops[0]);
      BehavesAsPairMap(StringApply(info, ops[0]), Apply(m, ops[0]), ops[1..]);
    }
  }
}
