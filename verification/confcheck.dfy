/** Checking the configured environments before the commands are compiled. */
module ConfCheck {
  import opened Wrappers
  import opened Text
  import opened CommandList

  datatype CheckError =
    | MissingField | LongPrefix | BadPrefix | ReservedPrefix | DuplicatePrefix
    | StartsItself | PrefixedEnd | UnknownStart

  function PrefixOf(line: string): string {
    SplitPrefix(line).0
  }

  predicate IsComplete(c: CommandConf) {
    c.prefix != "" && c.prompt != "" && c.start != "" && c.end != ""
  }

  /** An environment that is fine by itself. */
  predicate IsSound(c: CommandConf) {
    && IsComplete(c) && |c.prefix| == 1 && IsPrefixChar(c.prefix[0]) && c.prefix != "$"
    && PrefixOf(c.start) != c.prefix && PrefixOf(c.end) == ""
  }

  /** What the check is for: each environment has all its parts and a prefix of its
      own, is left by a plain line, and is entered from the kernel, the shell or
      another configured environment. */
  ghost predicate Acceptable(confs: seq<CommandConf>) {
    && (forall i :: 0 <= i < |confs| ==> IsSound(confs[i]))
    && (forall i, j :: 0 <= i < j < |confs| ==> confs[i].prefix != confs[j].prefix)
    && (forall i :: 0 <= i < |confs| ==> Enterable(confs, confs[i]))
  }

  ghost predicate Enterable(confs: seq<CommandConf>, c: CommandConf) {
    PrefixOf(c.start) in ["", "$"] || exists j :: 0 <= j < |confs| && confs[j].prefix == PrefixOf(c.start)
  }

  lemma PrefixLength(line: string)
    ensures |PrefixOf(line)| <= 1 && (PrefixOf(line) != "" ==> IsPrefixChar(PrefixOf(line)[0]))
  {
  }

  /** Trying the prefix out on a line tells whether it is one. */
  lemma TryPrefix(prefix: string)
    requires |prefix| == 1
    ensures PrefixOf(prefix + " t") == if IsPrefixChar(prefix[0]) then prefix else ""
  {
    var line := prefix + " t";
    assert line[..1] == prefix;
    if IsPrefixChar(prefix[0]) {
      CleanTrim(line);
    } else {
      TrimLeftProperties(line);
      TrimRightProperties(TrimLeft(line));
      if !IsSpace(prefix[0]) {
        CleanTrim(line);
      } else {
        assert line[1..] == " t" && " t"[1..] == "t";
        CleanTrim("t");
      }
    }
  }

  /** prefixes collects the prefixes of the first n environments and the shell's. */
  ghost predicate Collects(prefixes: string, confs: seq<CommandConf>, n: nat)
    requires n <= |confs|
  {
    forall c: char :: c in prefixes <==> c == '$' || exists j :: 0 <= j < n && confs[j].prefix == [c]
  }

  lemma CollectsMore(prefixes: string, confs: seq<CommandConf>, n: nat)
    requires n < |confs| && Collects(prefixes, confs, n) && |confs[n].prefix| == 1
    ensures Collects(prefixes + confs[n].prefix, confs, n + 1)
  {
  }

  /** Checks one environment; earlier ones have been found sound. */
  method CheckOne(c: CommandConf, prefixes: string) returns (error: Option<CheckError>)
    ensures error.None? <==> IsSound(c) && c.prefix[0] !in prefixes
  {
    if c.prefix == "" || c.prompt == "" || c.start == "" || c.end == "" {
      return Some(MissingField);
    }
    if |c.prefix| > 1 {
      return Some(LongPrefix);
    }
    TryPrefix(c.prefix);
    var prefix := PrefixOf(c.prefix + " t");
    if prefix == "" {
      return Some(BadPrefix);
    } else if prefix == "$" {
      return Some(ReservedPrefix);
    } else if prefix[0] in prefixes {
      return Some(DuplicatePrefix);
    }
    var startPrefix := PrefixOf(c.start);
    if startPrefix != "" && startPrefix == prefix {
      return Some(StartsItself);
    }
    if PrefixOf(c.end) != "" {
      return Some(PrefixedEnd);
    }
    error := None;
  }

  /** Accepts exactly the acceptable configurations. */
  method CheckCommandConf(confs: seq<CommandConf>) returns (error: Option<CheckError>)
    ensures error.None? <==> Acceptable(confs)
  {
    hide IsSound, PrefixOf, Collects;
    var prefixes := "$";
    CollectsNone(confs);
    for n := 0 to |confs|
      invariant forall i :: 0 <= i < n ==> IsSound(confs[i])
      invariant forall i, j :: 0 <= i < j < n ==> confs[i].prefix != confs[j].prefix
      invariant Collects(prefixes, confs, n)
    {
      error := CheckOne(confs[n], prefixes);
      NewPrefix(prefixes, confs, n);
      if error.Some? {
        return;
      }
      CollectsMore(prefixes, confs, n);
      prefixes := prefixes + confs[n].prefix;
    }
    for n := 0 to |confs|
      invariant forall i :: 0 <= i < n ==> Enterable(confs, confs[i])
    {
      var startPrefix := PrefixOf(confs[n].start);
      PrefixLength(confs[n].start);
      KnownPrefix(prefixes, confs, startPrefix);
      if startPrefix != "" && startPrefix[0] !in prefixes {
        return Some(UnknownStart);
      }
    }
    error := None;
  }

  lemma CollectsNone(confs: seq<CommandConf>)
    ensures Collects("$", confs, 0)
  {
  }

  /** A sound environment has a new prefix when its character has not been collected. */
  lemma NewPrefix(prefixes: string, confs: seq<CommandConf>, n: nat)
    requires n < |confs| && Collects(prefixes, confs, n)
    ensures IsSound(confs[n]) ==>
      |confs[n].prefix| == 1
      && (confs[n].prefix[0] !in prefixes <==> forall i :: 0 <= i < n ==> confs[i].prefix != confs[n].prefix)
  {
    if IsSound(confs[n]) {
      assert confs[n].prefix == [confs[n].prefix[0]];
    }
  }

  lemma KnownPrefix(prefixes: string, confs: seq<CommandConf>, p: string)
    requires Collects(prefixes, confs, |confs|) && |p| <= 1
    ensures p != "" ==> (p[0] in prefixes <==> p == "$" || exists j :: 0 <= j < |confs| && confs[j].prefix == p)
  {
    if p != "" {
      assert p == [p[0]];
    }
  }

  /** In an acceptable configuration every environment's own prefix names it and
      nothing else. */
  lemma PrefixNamesConf(confs: seq<CommandConf>, k: nat)
    requires Acceptable(confs) && k < |confs|
    ensures FindConf(confs, confs[k].prefix) == Some(Fresh(confs[k]))
  {
    FindsFirst(confs, k);
  }

  lemma {:induction false} FindsFirst(confs: seq<CommandConf>, k: nat)
    requires k < |confs| && forall i :: 0 <= i < k ==> confs[i].prefix != confs[k].prefix
    ensures FindConf(confs, confs[k].prefix) == Some(Fresh(confs[k]))
  {
    if k > 0 {
      FindsFirst(confs[1..], k - 1);
    }
  }
}
