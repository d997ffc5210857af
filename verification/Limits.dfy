/** Capacity checks, and what phase one of a send lets into a signed manifest. */
module Limits {
  import opened Tree
  import opened BundleTree
  import opened Manifest
  import opened Storage
  import opened Strings
  import opened Wrappers

  /** None in a field means no limit on that axis. */
  datatype LimitsConfig = LimitsConfig(
    perFileMax: Option<int>, totalMax: Option<int>, countMax: Option<int>, inlineMax: Option<int>)

  datatype Constraint = PerFileMax | PerBundleTotalMax | PerBundleFileCountMax

  datatype Mode = Inline | Batch

  datatype UploadDecision = Mode(mode: Mode) | CapExceeded(constraint: Constraint, limit: int, observed: int)

  datatype DownloadMode = ServeInline | ServeReference

  predicate Over(size: int, cap: Option<int>) {
    cap.Some? && size > cap.value
  }

  function TotalSize(files: seq<FileEntry>): int {
    if files == [] then 0 else files[0].size + TotalSize(files[1..])
  }

  /** The first file above the cap, in manifest order. */
  function FirstOver(files: seq<FileEntry>, cap: Option<int>): Option<int> {
    if files == [] then None
    else if Over(files[0].size, cap) then Some(files[0].size)
    else FirstOver(files[1..], cap)
  }

  /** Count, then each file, then the sum, then the inline threshold. */
  function CheckManifest(fileCount: int, files: seq<FileEntry>, limits: LimitsConfig): UploadDecision {
    var over := FirstOver(files, limits.perFileMax);
    var total := TotalSize(files);
    if Over(fileCount, limits.countMax) then CapExceeded(PerBundleFileCountMax, limits.countMax.value, fileCount)
    else if over.Some? && limits.perFileMax.Some? then CapExceeded(PerFileMax, limits.perFileMax.value, over.value)
    else if Over(total, limits.totalMax) then CapExceeded(PerBundleTotalMax, limits.totalMax.value, total)
    else if Over(total, limits.inlineMax) then Mode(Batch)
    else Mode(Inline)
  }

  /** The first size above the cap. */
  ghost predicate FirstAbove(files: seq<FileEntry>, max: int, k: nat) {
    k < |files| && files[k].size > max && forall j :: 0 <= j < k ==> files[j].size <= max
  }

  lemma {:induction false} FirstOverIs(files: seq<FileEntry>, cap: Option<int>, k: nat)
    requires cap.Some? && FirstAbove(files, cap.value, k)
    ensures FirstOver(files, cap) == Some(files[k].size)
  {
    if k > 0 { FirstOverIs(files[1..], cap, k - 1); }
  }

  /** No limit, or one that is kept. */
  predicate Keeps(size: int, max: Option<int>) {
    max.None? || size <= max.value
  }

  /** A manifest gets a mode exactly if it keeps all caps, and it is inline exactly within the inline threshold. */
  lemma ModeIff(fileCount: int, files: seq<FileEntry>, limits: LimitsConfig)
    ensures CheckManifest(fileCount, files, limits).Mode? <==>
      && Keeps(fileCount, limits.countMax) && Keeps(TotalSize(files), limits.totalMax)
      && forall f <- files :: Keeps(f.size, limits.perFileMax)
    ensures CheckManifest(fileCount, files, limits) == Mode(Inline) <==>
      CheckManifest(fileCount, files, limits).Mode? && Keeps(TotalSize(files), limits.inlineMax)
  {
    NoneOver(files, limits.perFileMax);
  }

  /** A refusal names the first cap that is broken, in this order, and what was observed. */
  lemma RefusalNames(fileCount: int, files: seq<FileEntry>, limits: LimitsConfig, k: nat)
    ensures limits.countMax.Some? && fileCount > limits.countMax.value ==>
      CheckManifest(fileCount, files, limits) ==
        CapExceeded(PerBundleFileCountMax, limits.countMax.value, fileCount)
    ensures
      (&& Keeps(fileCount, limits.countMax) && limits.perFileMax.Some?
       && FirstAbove(files, limits.perFileMax.value, k)) ==>
        CheckManifest(fileCount, files, limits) == CapExceeded(PerFileMax, limits.perFileMax.value, files[k].size)
    ensures
      (&& Keeps(fileCount, limits.countMax) && (forall f <- files :: Keeps(f.size, limits.perFileMax))
       && limits.totalMax.Some? && TotalSize(files) > limits.totalMax.value) ==>
        CheckManifest(fileCount, files, limits) ==
          CapExceeded(PerBundleTotalMax, limits.totalMax.value, TotalSize(files))
  {
    NoneOver(files, limits.perFileMax);
    if limits.perFileMax.Some? && FirstAbove(files, limits.perFileMax.value, k) {
      FirstOverIs(files, limits.perFileMax, k);
    }
  }

  function EvaluateDownload(totalSize: int, limits: LimitsConfig): DownloadMode {
    if Over(totalSize, limits.inlineMax) then ServeReference else ServeInline
  }

  datatype SendError =
    | Malformed
    | InvalidManifest(verdict: Verdict)
    | InvalidPath
    | UnknownRecipient
    | NoTarget
    | Denied
    | Limit(decision: UploadDecision)

  /** The manifest, the mode and the bundle path that go into the upload token. */
  datatype Signed = Signed(files: seq<FileEntry>, mode: Mode, recipient: string, bundlePath: string)

  datatype SendResult = Minted(signed: Signed) | Refused(error: SendError)

  // ---- The recipient -------------------------------------------------------

  /** What the alias resolver says, if there is one: nothing, or inbox prefixes. */
  datatype Lookup = NoResolver | Unresolved | ResolvedTo(targets: seq<string>)

  /** The recipient; otherwise an unknown label, or a resolution that leaves no target. */
  datatype Address = Recipient(name: string) | NoSuchLabel | NoneLeft

  function WithoutSlashes(s: string): string {
    if s != "" && s[|s| - 1] == '/' then WithoutSlashes(s[..|s| - 1]) else s
  }

  predicate EndsWith(s: string, suffix: string) {
    |suffix| <= |s| && s[|s| - |suffix|..] == suffix
  }

  const INBOX := "inbox/"

  function RecipientOf(target: string): string {
    var plain := WithoutSlashes(target);
    WithoutSlashes(if INBOX <= plain then plain[|INBOX|..] else plain)
  }

  /** Of several targets the sender's own is left out. */
  function Without(targets: seq<string>, sender: string): (kept: seq<string>)
    ensures forall target :: target in kept <==> target in targets && !EndsWith(WithoutSlashes(target), sender)
  {
    if targets == [] then []
    else if EndsWith(WithoutSlashes(targets[0]), sender) then Without(targets[1..], sender)
    else [targets[0]] + Without(targets[1..], sender)
  }

  function Addressed(to: string, lookup: Lookup, sender: Option<string>): Address {
    match lookup
    case NoResolver => Recipient(to)
    case Unresolved => if ':' in to then NoSuchLabel else Recipient(to)
    case ResolvedTo(targets) =>
      var kept := if |targets| > 1 && sender.Some? then Without(targets, sender.value) else targets;
      if kept == [] then NoneLeft else Recipient(RecipientOf(kept[0]))
  }

  // The same without the functions that compute it.

  predicate EndsInSlash(s: string) {
    s != "" && s[|s| - 1] == '/'
  }

  function Slashes(n: nat): string {
    seq(n, _ => '/')
  }

  /** The text is this body, which does not end in a slash, and some slashes. */
  ghost predicate BodyOf(s: string, body: string) {
    !EndsInSlash(body) && exists n: nat :: s == body + Slashes(n)
  }

  lemma {:induction false} BodyOfIff(s: string, body: string)
    ensures WithoutSlashes(s) == body <==> BodyOf(s, body)
  {
    if EndsInSlash(s) {
      BodyOfIff(s[..|s| - 1], body);
      if n: nat :| s == body + Slashes(n) {
        if n > 0 { assert s[..|s| - 1] == body + Slashes(n - 1); } else { assert s == body; }
      }
      if n: nat :| s[..|s| - 1] == body + Slashes(n) { assert s == body + Slashes(n + 1); }
    } else {
      assert s == s + Slashes(0);
      if n: nat :| s == body + Slashes(n) {
        assert n > 0 ==> EndsInSlash(body + Slashes(n));
        assert body + Slashes(0) == body;
      }
    }
  }

  /** The recipient's name in a target: what follows `inbox/`, or all of it, without slashes at the end. */
  ghost predicate Names(target: string, name: string) {
    || (name != "" && BodyOf(target, "inbox/" + name))
    || (!("inbox/" <= name) && BodyOf(target, name))
  }

  lemma RecipientIff(target: string, name: string)
    ensures RecipientOf(target) == name <==> Names(target, name)
  {
    var plain := WithoutSlashes(target);
    BodyOfIff(target, plain);
    BodyOfIff(target, name);
    BodyOfIff(target, "inbox/" + name);
    if INBOX <= plain {
      var rest := plain[|INBOX|..];
      assert plain == "inbox/" + rest;
      assert ("inbox/" + name)[|INBOX|..] == name;
      assert EndsInSlash(INBOX) && INBOX + "" == INBOX;
      assert rest != "" ==> rest[|rest| - 1] == plain[|plain| - 1];
    }
  }

  /** The sender's own: it ends in the sender's label, slashes aside. */
  ghost predicate IsOwn(target: string, sender: string) {
    exists front :: BodyOf(target, front + sender)
  }

  lemma OwnIff(target: string, sender: string)
    ensures IsOwn(target, sender) <==> EndsWith(WithoutSlashes(target), sender)
  {
    var body := WithoutSlashes(target);
    BodyOfIff(target, body);
    if EndsWith(body, sender) { assert body == body[..|body| - |sender|] + sender; }
    if front :| BodyOf(target, front + sender) { BodyOfIff(target, front + sender); }
  }

  /** The target at `k` is the one: of one it is that, of several the first that is not the sender's own. */
  ghost predicate Chosen(targets: seq<string>, sender: Option<string>, k: nat) {
    if |targets| > 1 && sender.Some?
    then
      && k < |targets| && !IsOwn(targets[k], sender.value)
      && forall j :: 0 <= j < k ==> IsOwn(targets[j], sender.value)
    else k == 0 && targets != []
  }

  lemma {:induction false} FirstNotOwn(targets: seq<string>, sender: string, k: nat)
    requires k < |targets| && !IsOwn(targets[k], sender) && forall j :: 0 <= j < k ==> IsOwn(targets[j], sender)
    ensures Without(targets, sender) != [] && Without(targets, sender)[0] == targets[k]
  {
    OwnIff(targets[0], sender);
    if k > 0 { FirstNotOwn(targets[1..], sender, k - 1); }
  }

  lemma {:induction false} SomeNotOwn(targets: seq<string>, sender: string) returns (k: nat)
    requires Without(targets, sender) != []
    ensures k < |targets| && !IsOwn(targets[k], sender) && forall j :: 0 <= j < k ==> IsOwn(targets[j], sender)
  {
    OwnIff(targets[0], sender);
    if EndsWith(WithoutSlashes(targets[0]), sender) {
      k := SomeNotOwn(targets[1..], sender);
      k := k + 1;
      forall j | 0 <= j < k
        ensures IsOwn(targets[j], sender)
      {
        if j > 0 { assert targets[j] == targets[1..][j - 1]; }
      }
    } else {
      k := 0;
    }
  }

  /** The message goes to this recipient. */
  ghost predicate AddressedTo(to: string, lookup: Lookup, sender: Option<string>, name: string) {
    match lookup
    case NoResolver => name == to
    case Unresolved => ':' !in to && name == to
    case ResolvedTo(targets) => exists k: nat :: Chosen(targets, sender, k) && Names(targets[k], name)
  }

  lemma AddressedIff(to: string, lookup: Lookup, sender: Option<string>, name: string)
    ensures Addressed(to, lookup, sender) == Recipient(name) <==> AddressedTo(to, lookup, sender, name)
  {
    if lookup.ResolvedTo? {
      var targets := lookup.targets;
      if |targets| > 1 && sender.Some? {
        if Without(targets, sender.value) != [] {
          var k := SomeNotOwn(targets, sender.value);
          FirstNotOwn(targets, sender.value, k);
          RecipientIff(targets[k], name);
          assert Chosen(targets, sender, k);
        }
        if k: nat :| Chosen(targets, sender, k) && Names(targets[k], name) {
          FirstNotOwn(targets, sender.value, k);
          RecipientIff(targets[k], name);
        }
      } else if targets != [] {
        assert Chosen(targets, sender, 0);
        RecipientIff(targets[0], name);
      }
    }
  }

  /** No target is left exactly if there was none, or the sender's own were all there was. */
  lemma NoneLeftIff(to: string, lookup: Lookup, sender: Option<string>)
    ensures Addressed(to, lookup, sender).NoneLeft? <==>
      && lookup.ResolvedTo?
      && (lookup.targets == []
          || (|lookup.targets| > 1 && sender.Some?
              && forall target <- lookup.targets :: IsOwn(target, sender.value)))
  {
    if lookup.ResolvedTo? && |lookup.targets| > 1 && sender.Some? {
      if Without(lookup.targets, sender.value) == [] {
        forall target <- lookup.targets
          ensures IsOwn(target, sender.value)
        {
          OwnIff(target, sender.value);
        }
      } else {
        var k := SomeNotOwn(lookup.targets, sender.value);
        assert lookup.targets[k] in lookup.targets;
      }
    }
  }

  /** A recipient's own prefix, with any number of slashes after it, is that recipient. */
  lemma PrefixIsItsRecipient(to: string, name: string, n: nat, sender: Option<string>, other: string)
    requires name != "" && '/' !in name
    ensures AddressedTo(to, ResolvedTo(["inbox/" + name + Slashes(n)]), sender, other) <==> other == name
  {
    var target := "inbox/" + name + Slashes(n);
    assert ("inbox/" + name)[|"inbox/" + name| - 1] == name[|name| - 1] && name[|name| - 1] in name;
    assert BodyOf(target, "inbox/" + name);
    assert Names(target, name) && Chosen([target], sender, 0);
    RecipientIff(target, name);
    RecipientIff(target, other);
    AddressedIff(to, ResolvedTo([target]), sender, name);
    AddressedIff(to, ResolvedTo([target]), sender, other);
  }

  // ---- Phase one -----------------------------------------------------------

  /** The manifest is accepted. */
  ghost predicate ManifestPasses(files: seq<FileEntry>, fileCount: Option<int>) {
    && (fileCount.Some? ==> fileCount.value == |files|)
    && NamesPass(files) && !(exists p, q :: AdjacentCollision(NamesOf(files), p, q))
  }

  /** Which checks came before the one that refused, and that this one did not pass. */
  ghost predicate RefusedRightly(
      error: SendError, files: seq<FileEntry>, fileCount: Option<int>, path: string, allowed: char -> bool,
      to: string, lookup: Lookup, sender: Option<string>, access: string -> bool, limits: LimitsConfig)
  {
    match error
    case Malformed => !ManifestPasses(files, fileCount) && fileCount.Some? && fileCount.value != |files|
    case InvalidManifest(verdict) => !ManifestPasses(files, fileCount) && verdict.Rejected?
    case InvalidPath => ManifestPasses(files, fileCount) && !PathPasses(path, allowed)
    case UnknownRecipient =>
      ManifestPasses(files, fileCount) && PathPasses(path, allowed) && lookup.Unresolved? && ':' in to
    case NoTarget =>
      && ManifestPasses(files, fileCount) && PathPasses(path, allowed)
      && lookup.ResolvedTo? && forall name :: !AddressedTo(to, lookup, sender, name)
    case Denied =>
      && ManifestPasses(files, fileCount) && PathPasses(path, allowed)
      && exists name :: AddressedTo(to, lookup, sender, name) && !access(name)
    case Limit(decision) =>
      && ManifestPasses(files, fileCount) && PathPasses(path, allowed)
      && (exists name :: AddressedTo(to, lookup, sender, name) && access(name))
      && decision == CheckManifest(|files|, files, limits) && decision.CapExceeded?
  }

  /** The checks in the order of the source; `access` is the policy's answer for a recipient. */
  method PrepareSendInit(
      to: string, path: string, files: seq<FileEntry>, fileCount: Option<int>, allowed: char -> bool,
      lookup: Lookup, sender: Option<string>, access: string -> bool, limits: LimitsConfig, allowInline: bool)
      returns (r: SendResult)
    ensures r.Minted? <==>
      && ManifestPasses(files, fileCount) && PathPasses(path, allowed)
      && (exists name :: AddressedTo(to, lookup, sender, name) && access(name))
      && CheckManifest(|files|, files, limits).Mode?
    ensures r.Minted? ==>
      && r.signed.files == files
      && AddressedTo(to, lookup, sender, r.signed.recipient) && access(r.signed.recipient)
      && r.signed.bundlePath == "inbox/" + r.signed.recipient + "/" + path && StaysInside(path)
      && (r.signed.mode == Inline <==> allowInline && CheckManifest(|files|, files, limits) == Mode(Inline))
    ensures r.Refused? ==>
      RefusedRightly(r.error, files, fileCount, path, allowed, to, lookup, sender, access, limits)
  {
    if fileCount.Some? && fileCount.value != |files| { return Refused(Malformed); }
    var verdict := ValidateManifest(files);
    if verdict.Rejected? { return Refused(InvalidManifest(verdict)); }
    if !PathPasses(path, allowed) { return Refused(InvalidPath); }
    PassingStaysInside(path, allowed);
    var address := Addressed(to, lookup, sender);
    forall name
      ensures address == Recipient(name) <==> AddressedTo(to, lookup, sender, name)
    {
      AddressedIff(to, lookup, sender, name);
    }
    if address.NoSuchLabel? { return Refused(UnknownRecipient); }
    if address.NoneLeft? { return Refused(NoTarget); }
    if !access(address.name) { return Refused(Denied); }
    var decision := CheckManifest(|files|, files, limits);
    if decision.CapExceeded? { return Refused(Limit(decision)); }
    return Minted(
      Signed(files, if allowInline then decision.mode else Batch, address.name,
             INBOX + address.name + "/" + path));
  }

  // ---- What the caps bind --------------------------------------------------

  /** The bytes a writer has counted for the declared names. */
  function WrittenBytes(files: seq<FileEntry>, written: map<string, nat>): nat
    requires forall f <- files :: f.name in written
  {
    if files == [] then 0
    else
      assert files[0] in files;
      assert forall f <- files[1..] :: f in files;
      written[files[0].name] + WrittenBytes(files[1..], written)
  }

  lemma {:induction false} WrittenIsDeclared(files: seq<FileEntry>, written: map<string, nat>)
    requires forall f <- files :: f.name in written && f.size == written[f.name]
    ensures WrittenBytes(files, written) == TotalSize(files)
  {
    if files != [] {
      assert files[0] in files;
      assert forall f <- files[1..] :: f in files;
      WrittenIsDeclared(files[1..], written);
    }
  }

  lemma {:induction false} DistinctNamesCount(files: seq<FileEntry>)
    requires forall i, j :: 0 <= i < j < |files| ==> files[i].name != files[j].name
    ensures |NamesOf(files)| == |files|
  {
    if files != [] {
      var n := |files| - 1;
      DistinctNamesCount(files[..n]);
      assert files == files[..n] + [files[n]];
      assert NamesOf(files) == NamesOf(files[..n]) + {files[n].name};
      forall f | f in files[..n]
        ensures f.name != files[n].name
      {
        var k :| 0 <= k < n && files[..n][k] == f;
      }
    }
  }

  /** An accepted size is within the cap, whatever the other sizes are. */
  lemma {:induction false} NoneOver(files: seq<FileEntry>, cap: Option<int>)
    ensures FirstOver(files, cap).None? <==> forall f <- files :: !Over(f.size, cap)
  {
    if files != [] {
      assert files[0] in files;
      NoneOver(files[1..], cap);
      assert forall f :: f in files <==> f == files[0] || f in files[1..];
    }
  }

  /** A decision for a mode is the bound on the total, and the mode is the one of the download. */
  lemma DecisionBindsTotal(fileCount: int, files: seq<FileEntry>, limits: LimitsConfig)
    ensures CheckManifest(fileCount, files, limits).Mode? ==>
      && !Over(TotalSize(files), limits.totalMax) && !Over(fileCount, limits.countMax)
      && (EvaluateDownload(TotalSize(files), limits) == ServeInline <==>
            CheckManifest(fileCount, files, limits) == Mode(Inline))
  {
  }

  /**
    Whatever sizes were declared (negative ones included), a manifest that passed phase one and
    then commits holds no more bytes and files than the caps, and is later served inline
    exactly when it was classified inline.
   */
  lemma CapsBindRealBytes(files: seq<FileEntry>, limits: LimitsConfig, written: map<string, nat>)
    requires CheckManifest(|files|, files, limits).Mode? && DeclaredAsWritten(files, written)
    ensures !Over(WrittenBytes(files, written), limits.totalMax)
    ensures !Over(|written|, limits.countMax)
    ensures forall name <- written :: !Over(written[name], limits.perFileMax)
    ensures EvaluateDownload(WrittenBytes(files, written), limits) == ServeInline <==>
      CheckManifest(|files|, files, limits) == Mode(Inline)
  {
    WrittenIsDeclared(files, written);
    DistinctNamesCount(files);
    assert NamesOf(files) == written.Keys;
    NoneOver(files, limits.perFileMax);
    forall name <- written
      ensures !Over(written[name], limits.perFileMax)
    {
      assert name in NamesOf(files);
      var f :| f in files && f.name == name;
    }
  }
}
