/** Execution of signed command plans: the gates a plan passes, the handlers that run, and the
    audit events that are left. */
module CommandExecution {
  import opened Wrappers
  import opened JsonText
  import opened CanonicalJson
  import opened SignedText
  import opened SigningAgreement
  import opened KeyTexts

  // ---- Plans and keys ----

  datatype Command = Command(sequenceId: SafeInteger, commandType: string, payload: Json)

  datatype Plan = Plan(planId: string, commands: seq<Command>, signature: string, publicKey: string)

  function Body(c: Command): Json {
    Obj([Member("sequence_id", Num(c.sequenceId)), Member("command_type", Str(c.commandType)), Member("payload", c.payload)])
  }

  function Bodies(commands: seq<Command>): (r: seq<Json>)
    ensures |r| == |commands| && forall i :: 0 <= i < |r| ==> r[i] == Body(commands[i])
  {
    seq(|commands|, i requires 0 <= i < |commands| => Body(commands[i]))
  }

  // ---- Signatures ----

  /** The hash and the signature scheme, left open: check(publicKey, signature, hash). */
  datatype Scheme = Scheme(hash: string -> Bytes, check: (Bytes, Bytes, Bytes) -> bool)

  function CommandsText(commands: seq<Command>): string {
    Dump(Arr(Bodies(commands)))
  }

  predicate Trusted(keys: map<string, string>, publicKey: string) {
    FromHex(publicKey).Some? && ToHex(FromHex(publicKey).value) in keys
  }

  predicate Verifies(scheme: Scheme, keys: map<string, string>, plan: Plan) {
    && plan.commands != [] && plan.signature != "" && plan.publicKey != ""
    && Trusted(keys, plan.publicKey)
    && FromHex(plan.signature).Some?
    && scheme.check(FromHex(plan.publicKey).value, FromHex(plan.signature).value, scheme.hash(CommandsText(plan.commands)))
  }

  // ---- Which keys a key file makes trusted ----

  /** The trusted keys that loading these (name, text) entries leaves. */
  ghost predicate Loads(listed: seq<(string, string)>, keys: map<string, string>) {
    forall k :: k in keys <==> k != "" && exists i :: 0 <= i < |listed| && listed[i].1 == k
  }

  /** A plan's key text is trusted exactly if it reads as hexadecimal and the file lists the
      lower-case spelling of the bytes it reads as. */
  lemma TrustedIffListed(listed: seq<(string, string)>, keys: map<string, string>, text: string)
    requires Loads(listed, keys)
    ensures Trusted(keys, text) <==>
      && FromHex(text).Some?
      && ToHex(FromHex(text).value) != ""
      && exists i :: 0 <= i < |listed| && listed[i].1 == ToHex(FromHex(text).value)
  {
  }

  /** The plan's key text is trusted by way of this entry. */
  predicate TrustedThrough(keys: map<string, string>, entry: string, text: string) {
    Trusted(keys, text) && ToHex(FromHex(text).value) == entry
  }

  /** An entry makes some key text trusted exactly if it is not empty and an even number of
      lower-case digits. */
  lemma {:induction false} EntryTrustsIff(listed: seq<(string, string)>, keys: map<string, string>, i: nat)
    requires Loads(listed, keys) && i < |listed|
    ensures (exists text :: TrustedThrough(keys, listed[i].1, text)) <==>
      listed[i].1 != "" && |listed[i].1| % 2 == 0 && forall c :: c in listed[i].1 ==> LowerHex(c)
  {
    hide FromHex, ToHex, LowerHex;
    var entry := listed[i].1;
    WrittenByHexIff(entry);
    if exists text :: TrustedThrough(keys, entry, text) {
      var text :| TrustedThrough(keys, entry, text);
      assert entry == ToHex(FromHex(text).value);
    }
    if exists b :: entry == ToHex(b) {
      var b :| entry == ToHex(b);
      FromHexToHex(b);
      if entry != "" {
        assert entry in keys;
        assert TrustedThrough(keys, entry, entry);
      }
    }
  }

  /** A file that spells a key any other way, in upper case or with spaces, trusts nobody: not
      even a plan that spells the key the same way. */
  lemma OtherSpellingTrustsNobody(name: string, spelling: string, keys: map<string, string>, text: string)
    requires Loads([(name, spelling)], keys)
    requires FromHex(spelling).Some? && spelling != ToHex(FromHex(spelling).value)
    ensures !Trusted(keys, text)
  {
    hide FromHex, ToHex;
    TrustedIffListed([(name, spelling)], keys, text);
    if Trusted(keys, text) {
      FromHexToHex(FromHex(text).value);
    }
  }

  class CryptoVerifier {
    const scheme: Scheme
    var trustedKeys: map<string, string>

    constructor (scheme: Scheme, listed: seq<(string, string)>)
      ensures this.scheme == scheme
      ensures Loads(listed, trustedKeys)
    {
      this.scheme := scheme;
      trustedKeys := map[];
      new;
      for i := 0 to |listed|
        invariant forall k :: k in trustedKeys <==> k != "" && exists j :: 0 <= j < i && listed[j].1 == k
      {
        var (name, keyHex) := listed[i];
        if keyHex != "" {
          trustedKeys := trustedKeys[keyHex := name];
        }
      }
    }

    method AddTrustedKey(name: string, key: Bytes)
      modifies this
      ensures trustedKeys == old(trustedKeys)[ToHex(key) := name]
    {
      trustedKeys := trustedKeys[ToHex(key) := name];
    }

    method RemoveTrustedKey(key: Bytes)
      modifies this
      ensures trustedKeys == old(trustedKeys) - {ToHex(key)}
    {
      trustedKeys := trustedKeys - {ToHex(key)};
    }

    method IsTrustedKey(key: Bytes) returns (trusted: bool)
      ensures trusted <==> ToHex(key) in trustedKeys
    {
      trusted := ToHex(key) in trustedKeys;
    }

    method Verify(plan: Plan) returns (valid: bool)
      ensures valid <==> Verifies(scheme, trustedKeys, plan)
    {
      if plan.commands == [] || plan.signature == "" || plan.publicKey == "" {
        return false;
      }
      var key := FromHex(plan.publicKey);
      if key.None? {
        return false;
      }
      var trusted := IsTrustedKey(key.value);
      if !trusted {
        return false;
      }
      var hash := scheme.hash(CommandsText(plan.commands));
      var signature := FromHex(plan.signature);
      if signature.None? {
        return false;
      }
      return scheme.check(key.value, signature.value, hash);
    }
  }

  // ---- What a signature covers ----

  predicate GoodPayloads(commands: seq<Command>) {
    forall c :: c in commands ==> WellFormed(c.payload)
  }

  /** The same commands, up to the order of members inside the payloads. */
  predicate SameCommands(a: seq<Command>, b: seq<Command>) {
    && |a| == |b|
    && forall i :: 0 <= i < |a| ==>
         a[i].sequenceId == b[i].sequenceId && a[i].commandType == b[i].commandType
         && Meaning(a[i].payload) == Meaning(b[i].payload)
  }

  lemma BodyKeys(c: Command)
    ensures DistinctKeys(Body(c).members)
  {
    var ms := Body(c).members;
    assert |ms[0].key| == 11 && |ms[1].key| == 12 && |ms[2].key| == 7;
    var tail := ms[1..];
    assert tail == [ms[1], ms[2]] && tail[1..] == [ms[2]];
    assert tail[1..][1..] == [];
    assert DistinctKeys(tail[1..]) && NoKey(tail[1..], ms[1].key) && DistinctKeys(tail);
    assert NoKey(tail, ms[0].key);
  }

  lemma BodyWellFormed(c: Command)
    requires WellFormed(c.payload)
    ensures WellFormed(Body(c))
  {
    BodyKeys(c);
  }

  lemma BodyMeaningIs(c: Command)
    ensures Meaning(Body(c)) == TObj(map[
      "sequence_id" := TNum(c.sequenceId), "command_type" := TStr(c.commandType), "payload" := Meaning(c.payload)])
  {
    var ms := Body(c).members;
    assert |ms[0].key| == 11 && |ms[1].key| == 12 && |ms[2].key| == 7;
    var tail := ms[1..];
    assert tail == [ms[1], ms[2]] && tail[1..] == [ms[2]] && tail[1..][1..] == [];
    assert MemberMeanings(tail[1..]) == map["payload" := Meaning(c.payload)];
    assert MemberMeanings(tail) == map["command_type" := TStr(c.commandType), "payload" := Meaning(c.payload)];
    assert MemberMeanings(ms) == MemberMeanings(tail)["sequence_id" := TNum(c.sequenceId)];
    assert MemberMeanings(ms) == map[
      "sequence_id" := TNum(c.sequenceId), "command_type" := TStr(c.commandType), "payload" := Meaning(c.payload)];
  }

  lemma BodyMeaning(a: Command, b: Command)
    ensures Meaning(Body(a)) == Meaning(Body(b)) <==>
      a.sequenceId == b.sequenceId && a.commandType == b.commandType && Meaning(a.payload) == Meaning(b.payload)
  {
    hide Meaning, Body;
    BodyMeaningIs(a);
    BodyMeaningIs(b);
    ThreeKeys(TNum(a.sequenceId), TStr(a.commandType), Meaning(a.payload),
              TNum(b.sequenceId), TStr(b.commandType), Meaning(b.payload));
  }

  lemma ThreeKeys(x: Tree, y: Tree, z: Tree, x': Tree, y': Tree, z': Tree)
    ensures (map["sequence_id" := x, "command_type" := y, "payload" := z]
             == map["sequence_id" := x', "command_type" := y', "payload" := z'])
      <==> (x == x' && y == y' && z == z')
  {
    var m, n := map["sequence_id" := x, "command_type" := y, "payload" := z],
                map["sequence_id" := x', "command_type" := y', "payload" := z'];
    assert |"sequence_id"| == 11 && |"command_type"| == 12 && |"payload"| == 7;
    assert m["sequence_id"] == x && m["command_type"] == y && m["payload"] == z;
    assert n["sequence_id"] == x' && n["command_type"] == y' && n["payload"] == z';
  }

  lemma {:induction false} MeaningsAt(items: seq<Json>, i: nat)
    requires i < |items|
    ensures |Meanings(items)| == |items| && Meanings(items)[i] == Meaning(items[i])
    decreases items
  {
    hide Meaning;
    if |items| > 1 {
      MeaningsAt(items[1..], if i == 0 then 0 else i - 1);
    }
  }

  lemma BodiesMeaning(a: seq<Command>, b: seq<Command>)
    requires GoodPayloads(a) && GoodPayloads(b)
    ensures Meaning(Arr(Bodies(a))) == Meaning(Arr(Bodies(b))) <==> SameCommands(a, b)
  {
    var x, y := Bodies(a), Bodies(b);
    forall i | 0 <= i < |x| ensures |Meanings(x)| == |x| && Meanings(x)[i] == Meaning(x[i]) {
      MeaningsAt(x, i);
    }
    forall i | 0 <= i < |y| ensures |Meanings(y)| == |y| && Meanings(y)[i] == Meaning(y[i]) {
      MeaningsAt(y, i);
    }
    forall i | 0 <= i < |a| && i < |b|
      ensures Meaning(x[i]) == Meaning(y[i]) <==>
        a[i].sequenceId == b[i].sequenceId && a[i].commandType == b[i].commandType
        && Meaning(a[i].payload) == Meaning(b[i].payload)
    {
      assert a[i] in a && b[i] in b;
      BodyMeaning(a[i], b[i]);
    }
    if SameCommands(a, b) {
      assert Meanings(x) == Meanings(y);
    }
  }

  /** Where the hash does not collide on the two texts, two command lists share a signed hash
      exactly if they are the same commands. */
  lemma HashBindsCommands(scheme: Scheme, a: seq<Command>, b: seq<Command>)
    requires GoodPayloads(a) && GoodPayloads(b)
    requires scheme.hash(CommandsText(a)) == scheme.hash(CommandsText(b)) ==> CommandsText(a) == CommandsText(b)
    ensures scheme.hash(CommandsText(a)) == scheme.hash(CommandsText(b)) <==> SameCommands(a, b)
  {
    hide Dump;
    BodiesWellFormed(a);
    BodiesWellFormed(b);
    PyTextDecides(Arr(Bodies(a)), Arr(Bodies(b)));
    BodiesMeaning(a, b);
  }

  lemma BodiesWellFormed(a: seq<Command>)
    requires GoodPayloads(a)
    ensures WellFormed(Arr(Bodies(a)))
  {
    forall x | x in Bodies(a) ensures WellFormed(x) {
      var i :| 0 <= i < |a| && x == Body(a[i]);
      assert a[i] in a;
      BodyWellFormed(a[i]);
    }
  }

  // ---- Plans signed in the browser ----

  datatype Signer = Signer(publicKey: Bytes, sign: Bytes -> Bytes)

  /** The plan that the browser signs and uploads: the signature is over the hash of its own
      canonical text, and signature and key travel as Base64. */
  function SignedInBrowser(scheme: Scheme, signer: Signer, planId: string, commands: seq<Command>): Plan {
    Plan(planId, commands,
         Base64(signer.sign(scheme.hash(JsText(Arr(Bodies(commands)))))), Base64(signer.publicKey))
  }

  /** Such a key text can be trusted exactly if its Base64 digits happen to be hexadecimal ones
      and the bytes these spell are trusted. A key of 32 bytes never is. */
  lemma Base64KeyTrustedIff(keys: map<string, string>, key: Bytes)
    ensures Trusted(keys, Base64(key)) <==>
      && (forall c :: c in Base64(key) ==> HexValue(c).Some?)
      && ToHex(FromHex(Base64(key)).GetOr([])) in keys
    ensures |key| == 32 ==> !Trusted(keys, Base64(key))
  {
    hide FromHex, ToHex, HexValue, Base64;
    Base64ReadsAsHexIff(key);
  }

  /** No plan with a Base64 signature of 64 bytes verifies, whatever its key text. */
  lemma Base64SignatureNeverVerifies(scheme: Scheme, keys: map<string, string>, plan: Plan, signature: Bytes)
    requires |signature| == 64 && plan.signature == Base64(signature)
    ensures !Verifies(scheme, keys, plan)
  {
    hide FromHex, Base64;
    Base64ReadsAsHexIff(signature);
  }

  /** If both texts were hexadecimal, a plan of portable commands would verify on board exactly
      if its key is trusted and its signature checks over the browser's own text. */
  lemma HexSignatureVerifiesIff(scheme: Scheme, keys: map<string, string>, plan: Plan, key: Bytes, signature: Bytes)
    requires plan.commands != [] && key != [] && signature != []
    requires plan.publicKey == ToHex(key) && plan.signature == ToHex(signature)
    requires GoodPayloads(plan.commands) && Portable(Arr(Bodies(plan.commands)))
    ensures Verifies(scheme, keys, plan) <==>
      ToHex(key) in keys && scheme.check(key, signature, scheme.hash(JsText(Arr(Bodies(plan.commands)))))
  {
    FromHexToHex(key);
    FromHexToHex(signature);
    ToHexShape(key);
    ToHexShape(signature);
    hide Dump, JsText, Portable, FromHex, ToHex;
    BodiesWellFormed(plan.commands);
    TextsAgreeIff(Arr(Bodies(plan.commands)));
  }

  /** The key and the signature of a browser plan, respelled in hexadecimal. */
  function Respelled(plan: Plan): Plan {
    plan.(publicKey := ToHex(FromBase64(plan.publicKey).GetOr([])), signature := ToHex(FromBase64(plan.signature).GetOr([])))
  }

  /** Only the spelling is wrong: where the flight software's check accepts what the signer
      signs, a browser plan of portable commands under a trusted key verifies on board once its
      two texts are respelled in hexadecimal, with its commands as they are. */
  lemma RespelledPlanVerifies(
    scheme: Scheme, keys: map<string, string>, signer: Signer, planId: string, commands: seq<Command>)
    requires commands != [] && GoodPayloads(commands) && Portable(Arr(Bodies(commands)))
    requires signer.publicKey != [] && ToHex(signer.publicKey) in keys
    requires forall h :: signer.sign(h) != [] && scheme.check(signer.publicKey, signer.sign(h), h)
    ensures var plan := SignedInBrowser(scheme, signer, planId, commands);
      && plan.planId == planId && plan.commands == commands
      && Verifies(scheme, keys, Respelled(plan))
  {
    var plan := SignedInBrowser(scheme, signer, planId, commands);
    hide JsText, Portable, GoodPayloads, Verifies, Base64, FromBase64, ToHex, Bodies;
    var signature := signer.sign(scheme.hash(JsText(Arr(Bodies(commands)))));
    FromBase64ToBase64(signer.publicKey);
    FromBase64ToBase64(signature);
    HexSignatureVerifiesIff(scheme, keys, Respelled(plan), signer.publicKey, signature);
  }
}
