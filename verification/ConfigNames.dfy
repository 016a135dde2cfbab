/** Configuration paths printed as environment variables (pkg/reflectcfg/reflectcfg.go)
    and parsed back (pkg/config/module.go). */
module ConfigNames {
  import opened Common
  import opened Text

  const PREFIX := "LAKTA_"

  /** envVarName */
  function EnvVarName(configPath: string, key: string): string {
    PREFIX + ToUpper(ReplaceAll(configPath, ".", "__") + "__" + key)
  }

  /** envKeyTransform */
  function EnvKeyTransform(prefix: string, s: string): string {
    ToLower(ReplaceAll(TrimPrefix(s, prefix), "__", "."))
  }

  ghost predicate NoUpper(s: string) {
    forall i :: 0 <= i < |s| ==> !IsUpper(s[i])
  }

  // ----- double underscores -----

  /** Step by step, what containing a pair of characters means. */
  lemma ContainsStep(c: char, s: string, a: char, b: char)
    ensures Contains([c] + s, [a, b]) <==> (c == a && s != "" && s[0] == b) || Contains(s, [a, b])
  {
    var t := [c] + s;
    if Contains(t, [a, b]) {
      var i :| 0 <= i <= |t| && [a, b] <= t[i..];
      assert t[i..][0] == a && t[i..][1] == b;
      if i > 0 {
        assert t[i..] == s[i - 1..];
      }
    }
    if c == a && s != "" && s[0] == b {
      assert [a, b] <= t[0..];
    }
    if Contains(s, [a, b]) {
      var i :| 0 <= i <= |s| && [a, b] <= s[i..];
      assert t[i + 1..] == s[i..];
    }
  }

  lemma EmptyContainsNone(a: char, b: char)
    ensures !Contains("", [a, b])
  {
  }

  lemma PairAtFront(s: string)
    ensures "__" <= s <==> |s| >= 2 && s[0] == '_' && s[1] == '_'
  {
    assert "__"[0] == '_' && "__"[1] == '_';
    if |s| >= 2 && s[0] == '_' && s[1] == '_' {
      assert s[..2] == "__";
    }
  }

  /** What is left after replacing has no double underscore. */
  lemma {:induction false} ReplacedHasNone(s: string)
    ensures !Contains(ReplaceAll(s, "__", "."), "__")
    decreases |s|
  {
    if s != "" {
      PairAtFront(s);
      var k := if "__" <= s then 2 else 1;
      var rest := ReplaceAll(s[k..], "__", ".");
      ReplacedHasNone(s[k..]);
      PairAtFront(s[k..]);
      ContainsStep(if "__" <= s then '.' else s[0], rest, '_', '_');
    }
  }

  lemma {:induction false} NothingToReplace(s: string)
    ensures ReplaceAll(s, "__", ".") == s <==> !Contains(s, "__")
    decreases |s|
  {
    if s != "" {
      PairAtFront(s);
      assert s == [s[0]] + s[1..];
      ContainsStep(s[0], s[1..], '_', '_');
      NothingToReplace(s[1..]);
    }
  }

  // ----- letter case -----

  lemma LowerAppend(s: string, t: string)
    ensures ToLower(s + t) == ToLower(s) + ToLower(t)
  {
  }

  lemma LowerOfUpper(s: string)
    ensures ToLower(ToUpper(s)) == ToLower(s)
  {
  }

  lemma LowerOfLower(s: string)
    ensures ToLower(s) == s <==> NoUpper(s)
    ensures NoUpper(ToLower(s))
  {
    if !NoUpper(s) {
      var i :| 0 <= i < |s| && IsUpper(s[i]);
      assert ToLower(s)[i] != s[i];
    }
  }

  lemma DotAtFront(s: string)
    ensures "." <= s <==> s != "" && s[0] == '.'
  {
    assert "."[0] == '.';
    if s != "" && s[0] == '.' {
      assert s[..1] == ".";
    }
  }

  /** Letter case does not change what stands in front. */
  lemma FrontLower(s: string, what: string)
    requires what == "__" || what == "."
    ensures what <= s <==> what <= ToLower(s)
  {
    PairAtFront(s);
    PairAtFront(ToLower(s));
    DotAtFront(s);
    DotAtFront(ToLower(s));
  }

  lemma ReplaceFront(s: string, what: string, with: string)
    requires what != "" && s != ""
    ensures ReplaceAll(s, what, with) ==
      if what <= s then with + ReplaceAll(s[|what|..], what, with) else [s[0]] + ReplaceAll(s[1..], what, with)
  {
  }

  lemma LowerRest(s: string, k: nat)
    requires k <= |s|
    ensures ToLower(s)[k..] == ToLower(s[k..])
  {
  }

  /** Replacing an underscore pair or a dot does not look at letters. */
  lemma {:induction false} LowerReplaced(s: string, what: string, with: string)
    requires (what == "__" && with == ".") || (what == "." && with == "__")
    ensures ToLower(ReplaceAll(s, what, with)) == ReplaceAll(ToLower(s), what, with)
    decreases |s|
  {
    if s != "" {
      var low := ToLower(s);
      assert low[0] == Lower(s[0]) && ToLower([s[0]]) == [low[0]] && ToLower(with) == with;
      var k := if what <= s then |what| else 1;
      var head := if what <= s then with else [s[0]];
      hide ToLower, ReplaceAll, Lower;
      FrontLower(s, what);
      ReplaceFront(s, what, with);
      ReplaceFront(low, what, with);
      LowerRest(s, k);
      LowerReplaced(s[k..], what, with);
      LowerAppend(head, ReplaceAll(s[k..], what, with));
    }
  }

  /** The path read from a printed variable. */
  lemma PrintedThenRead(configPath: string, key: string)
    ensures EnvKeyTransform(PREFIX, EnvVarName(configPath, key))
         == ReplaceAll(ReplaceAll(ToLower(configPath), ".", "__") + "__" + ToLower(key), "__", ".")
  {
    var body := ReplaceAll(configPath, ".", "__") + "__" + key;
    assert TrimPrefix(PREFIX + ToUpper(body), PREFIX) == ToUpper(body);
    LowerReplaced(ToUpper(body), "__", ".");
    LowerOfUpper(body);
    LowerAppend(ReplaceAll(configPath, ".", "__") + "__", key);
    LowerAppend(ReplaceAll(configPath, ".", "__"), "__");
    LowerReplaced(configPath, ".", "__");
    assert ToLower("__") == "__";
  }

  // ----- the round trip -----

  /** No segment of the path holds a double underscore or ends in one underscore, and the
      key holds no double underscore. */
  ghost predicate Separable(configPath: string, key: string) {
    && !Contains(configPath + ".", "__")
    && !Contains(configPath + ".", "_.")
    && !Contains(key, "__")
  }

  function Printed(path: string, key: string): string {
    ReplaceAll(path, ".", "__") + "__" + key
  }

  lemma PrintedStep(path: string, key: string)
    requires path != ""
    ensures Printed(path, key) == (if path[0] == '.' then "__" else [path[0]]) + Printed(path[1..], key)
    ensures Printed(path[1..], key) != ""
    ensures Printed(path[1..], key)[0] == '_' <==> path == [path[0]] || path[1] == '_' || path[1] == '.'
  {
    assert "." <= path <==> path[0] == '.' by {
      if path[0] == '.' { assert path[..1] == "."; }
    }
    var rest := path[1..];
    if rest != "" {
      assert "." <= rest <==> rest[0] == '.' by {
        if rest[0] == '.' { assert rest[..1] == "."; }
      }
    }
  }

  lemma SeparableStep(path: string, key: string)
    requires path != ""
    ensures Separable(path, key) <==>
      Separable(path[1..], key) && !(path[0] == '_' && (path == [path[0]] || path[1] == '_' || path[1] == '.'))
  {
    var rest := path[1..] + ".";
    assert path + "." == [path[0]] + rest;
    ContainsStep(path[0], rest, '_', '_');
    ContainsStep(path[0], rest, '_', '.');
  }

  lemma {:induction false} LowerRoundTrip(path: string, key: string)
    ensures ReplaceAll(Printed(path, key), "__", ".") == path + "." + key <==> Separable(path, key)
    decreases |path|
  {
    if path == "" {
      assert Printed(path, key) == "__" + key;
      assert ("__" + key)[2..] == key && "" + "." + key == "." + key;
      NothingToReplace(key);
      SameHead('.', ReplaceAll(key, "__", "."), key);
      assert "" + "." == ['.'] + "";
      ContainsStep('.', "", '_', '_');
      ContainsStep('.', "", '_', '.');
      EmptyContainsNone('_', '_');
      EmptyContainsNone('_', '.');
    } else {
      PrintedStep(path, key);
      SeparableStep(path, key);
      LowerRoundTrip(path[1..], key);
      ReadStep(path, key);
    }
  }

  lemma SameHead(c: char, s: string, t: string)
    ensures [c] + s == [c] + t <==> s == t
  {
    assert ([c] + s)[1..] == s && ([c] + t)[1..] == t;
  }

  lemma FullStep(path: string, key: string)
    requires path != ""
    ensures path + "." + key == [path[0]] + (path[1..] + "." + key)
  {
  }

  lemma OtherHead(c: char, d: char, s: string, t: string)
    requires c != d
    ensures [c] + s != [d] + t
  {
    assert ([c] + s)[0] == c && ([d] + t)[0] == d;
  }

  lemma ReadStep(path: string, key: string)
    requires path != ""
    ensures ReplaceAll(Printed(path, key), "__", ".") == path + "." + key <==>
      ReplaceAll(Printed(path[1..], key), "__", ".") == path[1..] + "." + key
      && !(path[0] == '_' && (path == [path[0]] || path[1] == '_' || path[1] == '.'))
  {
    hide Printed, ReplaceAll;
    PrintedStep(path, key);
    FullStep(path, key);
    var rest, full := Printed(path[1..], key), path[1..] + "." + key;
    if path[0] == '.' {
      PairReads(rest);
      SameHead('.', ReplaceAll(rest, "__", "."), full);
    } else if path[0] == '_' && rest[0] == '_' {
      assert ['_'] + rest == "__" + rest[1..];
      PairReads(rest[1..]);
      OtherHead('.', '_', ReplaceAll(rest[1..], "__", "."), full);
    } else {
      ReplaceHead(path[0], rest);
      SameHead(path[0], ReplaceAll(rest, "__", "."), full);
    }
  }

  lemma PairReads(rest: string)
    ensures ReplaceAll("__" + rest, "__", ".") == "." + ReplaceAll(rest, "__", ".")
  {
    assert ("__" + rest)[2..] == rest && "__" <= "__" + rest;
  }

  lemma ReplaceHead(c: char, s: string)
    requires c != '_' || s == "" || s[0] != '_'
    ensures ReplaceAll([c] + s, "__", ".") == [c] + ReplaceAll(s, "__", ".")
  {
    PairAtFront([c] + s);
    assert ([c] + s)[1..] == s;
  }

  /** A documented variable sets the field it documents exactly when the path has no
      upper-case letter and is separable. */
  lemma RoundTripIff(configPath: string, key: string)
    requires IsAscii(configPath) && IsAscii(key)
    ensures EnvKeyTransform(PREFIX, EnvVarName(configPath, key)) == configPath + "." + key
       <==> NoUpper(configPath) && NoUpper(key) && Separable(configPath, key)
  {
    var full := configPath + "." + key;
    PrintedThenRead(configPath, key);
    LowerOfLower(configPath);
    LowerOfLower(key);
    LowerOfLower(full);
    LowerAppend(configPath + ".", key);
    LowerAppend(configPath, ".");
    LowerRoundTrip(configPath, key);
    var read := EnvKeyTransform(PREFIX, EnvVarName(configPath, key));
    LowerOfLower(ReplaceAll(TrimPrefix(EnvVarName(configPath, key), PREFIX), "__", "."));
    if !NoUpper(configPath) || !NoUpper(key) {
      assert !NoUpper(full) by {
        if i :| 0 <= i < |configPath| && IsUpper(configPath[i]) {
          assert full[i] == configPath[i];
        } else {
          var i :| 0 <= i < |key| && IsUpper(key[i]);
          assert full[|configPath| + 1 + i] == key[i];
        }
      }
      assert NoUpper(read);
    }
  }

  lemma {:induction false} UnderscoreMoves(p: string, key: string)
    requires '_' !in p && '.' !in p
    requires !Contains(key, "__") && (key == "" || key[0] != '_')
    ensures ReplaceAll(Printed(p + "_", key), "__", ".") == p + "._" + key
  {
    if p == "" {
      UnderscoreAlone(key);
      assert "" + "_" == "_" && "" + "._" + key == "._" + key;
    } else {
      hide Printed, ReplaceAll, Contains;
      assert p[0] in p && (p + "_")[0] == p[0] && (p + "_")[1..] == p[1..] + "_";
      PrintedStep(p + "_", key);
      UnderscoreMoves(p[1..], key);
      ReplaceHead(p[0], Printed(p[1..] + "_", key));
      Regroup(p, "._" + key);
      assert p + "._" + key == p + ("._" + key) && p[1..] + "._" + key == p[1..] + ("._" + key);
    }
  }

  lemma Regroup(p: string, rest: string)
    requires p != ""
    ensures [p[0]] + (p[1..] + rest) == p + rest
  {
  }

  lemma UnderscoreAlone(key: string)
    requires !Contains(key, "__") && (key == "" || key[0] != '_')
    ensures ReplaceAll(Printed("_", key), "__", ".") == "._" + key
  {
    PrintedStep("_", key);
    assert Printed("_", key) == "__" + (['_'] + key) by {
      assert "_"[1..] == "" && Printed("", key) == "__" + key;
    }
    hide Printed;
    assert ("__" + (['_'] + key))[2..] == ['_'] + key;
    ReplaceHead('_', key);
    NothingToReplace(key);
  }

  /** An underscore at the end of a segment moves to the front of the next one, so the
      variable documented for `a_.b` sets `a._b` instead. */
  lemma TrailingUnderscoreMoves(p: string, key: string)
    requires '_' !in p && '.' !in p && NoUpper(p)
    requires NoUpper(key) && !Contains(key, "__") && (key == "" || key[0] != '_')
    ensures EnvKeyTransform(PREFIX, EnvVarName(p + "_", key)) == p + "._" + key != p + "_" + "." + key
  {
    PrintedThenRead(p + "_", key);
    LowerOfLower(p + "_");
    LowerOfLower(key);
    UnderscoreMoves(p, key);
    assert (p + "._" + key)[|p|] == '.' && (p + "_" + "." + key)[|p|] == '_';
  }

  lemma {:induction false} NoDotLeft(s: string)
    ensures '.' !in ReplaceAll(s, ".", "__")
    decreases |s|
  {
    if s != "" {
      DotAtFront(s);
      NoDotLeft(if "." <= s then s[|"."|..] else s[1..]);
    }
  }

  /** A printed name is one a shell can set: it starts with the prefix of the application,
      and has neither a lower-case letter nor, unless the key has one, a dot. Without its
      letter case it spells the path, with a double underscore for every dot. */
  lemma PrintedName(configPath: string, key: string)
    ensures
      var name := EnvVarName(configPath, key);
      && "LAKTA_" <= name && (forall i :: 0 <= i < |name| ==> !IsLower(name[i]))
      && ('.' !in key ==> '.' !in name)
      && ToLower(name) == "lakta_" + ReplaceAll(ToLower(configPath), ".", "__") + "__" + ToLower(key)
  {
    var body := ReplaceAll(configPath, ".", "__") + "__" + key;
    var name := EnvVarName(configPath, key);
    assert name == "LAKTA_" + ToUpper(body);
    NoDotLeft(configPath);
    assert '.' !in body ==> '.' !in ToUpper(body);
    LowerAppend("LAKTA_", ToUpper(body));
    LowerOfUpper(body);
    LowerAppend(ReplaceAll(configPath, ".", "__") + "__", key);
    LowerAppend(ReplaceAll(configPath, ".", "__"), "__");
    LowerReplaced(configPath, ".", "__");
    assert ToLower("__") == "__" && ToLower("LAKTA_") == "lakta_";
    var spelt := ReplaceAll(ToLower(configPath), ".", "__") + "__" + ToLower(key);
    assert ToLower(name) == "lakta_" + spelt;
    assert "lakta_" + spelt == "lakta_" + ReplaceAll(ToLower(configPath), ".", "__") + "__" + ToLower(key);
  }

  /** Fields that can be set have variables of their own. */
  lemma DistinctNames(p: string, k: string, q: string, l: string)
    requires IsAscii(p) && IsAscii(k) && IsAscii(q) && IsAscii(l)
    requires NoUpper(p) && NoUpper(k) && Separable(p, k)
    requires NoUpper(q) && NoUpper(l) && Separable(q, l)
    requires EnvVarName(p, k) == EnvVarName(q, l)
    ensures p + "." + k == q + "." + l
  {
    RoundTripIff(p, k);
    RoundTripIff(q, l);
  }

  /** The paths that some environment variable can set: those without a double underscore
      and without an upper-case letter. */
  lemma ReachableIff(prefix: string, path: string)
    requires IsAscii(path)
    ensures (exists s :: IsAscii(s) && EnvKeyTransform(prefix, prefix + s) == path)
       <==> NoUpper(path) && !Contains(path, "__")
  {
    if s :| IsAscii(s) && EnvKeyTransform(prefix, prefix + s) == path {
      NeverDouble(prefix, prefix + s);
      LowerOfLower(ReplaceAll(TrimPrefix(prefix + s, prefix), "__", "."));
    }
    if NoUpper(path) && !Contains(path, "__") {
      assert TrimPrefix(prefix + path, prefix) == path;
      NothingToReplace(path);
      LowerOfLower(path);
      assert EnvKeyTransform(prefix, prefix + path) == path;
    }
  }

  /** No variable yields a path with a double underscore. */
  lemma NeverDouble(prefix: string, s: string)
    ensures !Contains(EnvKeyTransform(prefix, s), "__")
  {
    var raw := TrimPrefix(s, prefix);
    LowerReplaced(raw, "__", ".");
    ReplacedHasNone(ToLower(raw));
  }

  // ----- unknown flags -----

  /** parseFlag */
  function ParseFlag(arg: string): Option<(string, string)> {
    if "--" <= arg then Cut(arg[2..], '=') else None
  }

  /** A flag is taken apart as it was put together, at its first equals sign, and only
      what has that form is a flag. */
  lemma FlagIff(arg: string, k: string, v: string)
    ensures ParseFlag(arg) == Some((k, v)) <==> arg == "--" + k + "=" + v && '=' !in k
  {
    hide Cut;
    if "--" <= arg {
      FlagBody(arg, k, v);
      if '=' !in k {
        CutFirst(k, '=', v);
      }
    } else {
      assert arg != "--" + (k + ['='] + v);
      assert "--" + (k + ['='] + v) == "--" + k + "=" + v;
    }
  }

  lemma FlagBody(arg: string, k: string, v: string)
    requires "--" <= arg
    ensures arg == "--" + k + "=" + v <==> arg[2..] == k + ['='] + v
  {
    assert arg == "--" + arg[2..];
    assert "--" + k + "=" + v == "--" + (k + ['='] + v);
    assert ("--" + (k + ['='] + v))[2..] == k + ['='] + v;
  }
}
