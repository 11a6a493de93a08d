/**
 * Resolving a pattern's free-text `files` tokens to uploads. Each token takes the first
 * upload, in upload order, whose name contains it or is contained in it and is not the
 * seed's name; the seed's own upload is then put in front and the list is cut to four.
 * Nothing is de-duplicated and short lists are not padded.
 */
module Resolver {
  import opened Wrappers
  import opened Strings
  import opened Uploads

  /** How many photos a pattern shows. */
  const SetSize: nat := 4

  /** `(token in up.name or up.name in token) and up.name != seedName`. */
  predicate Qualifies(token: string, up: Upload, seedName: string)
    ensures Qualifies(token, up, seedName) ==> up.name != seedName
  {
    (Contains(up.name, token) || Contains(token, up.name)) && up.name != seedName
  }

  /** The first upload that qualifies for `token`: where the inner loop breaks. */
  function FirstMatch(token: string, uploads: seq<Upload>, seedName: string): (r: Option<Upload>)
    ensures r.Some? ==> r.value in uploads && Qualifies(token, r.value, seedName)
  {
    if |uploads| == 0 then None
    else if Qualifies(token, uploads[0], seedName) then Some(uploads[0])
    else FirstMatch(token, uploads[1..], seedName)
  }

  /** The first match is the qualifying upload of least index, and there is none exactly when nothing qualifies. */
  lemma {:induction false} FirstMatchSpec(token: string, uploads: seq<Upload>, seedName: string)
    ensures FirstMatch(token, uploads, seedName).None? <==>
      forall k :: 0 <= k < |uploads| ==> !Qualifies(token, uploads[k], seedName)
    ensures FirstMatch(token, uploads, seedName).Some? ==>
      exists i :: 0 <= i < |uploads| && uploads[i] == FirstMatch(token, uploads, seedName).value &&
        Qualifies(token, uploads[i], seedName) &&
        forall j :: 0 <= j < i ==> !Qualifies(token, uploads[j], seedName)
  {
    if |uploads| > 0 && !Qualifies(token, uploads[0], seedName) {
      var rest := uploads[1..];
      FirstMatchSpec(token, rest, seedName);
      if FirstMatch(token, rest, seedName).Some? {
        var i :| 0 <= i < |rest| && rest[i] == FirstMatch(token, rest, seedName).value &&
          Qualifies(token, rest[i], seedName) && forall j :: 0 <= j < i ==> !Qualifies(token, rest[j], seedName);
        assert uploads[i + 1] == rest[i];
        forall j | 0 < j < i + 1 ensures !Qualifies(token, uploads[j], seedName) {
          assert uploads[j] == rest[j - 1];
        }
      } else {
        forall k | 0 < k < |uploads| ensures !Qualifies(token, uploads[k], seedName) {
          assert uploads[k] == rest[k - 1];
        }
      }
    }
  }

  /** The uploads the tokens pick, one or none per token, in token order. */
  function Matches(tokens: seq<string>, uploads: seq<Upload>, seedName: string): (r: seq<Upload>)
    ensures |r| <= |tokens|
  {
    if |tokens| == 0 then []
    else Matches(tokens[..|tokens| - 1], uploads, seedName) + ToSeq(FirstMatch(tokens[|tokens| - 1], uploads, seedName))
  }

  /** Matching a list of tokens in two parts gives the two parts' matches in order. */
  lemma {:induction false} MatchesAppend(a: seq<string>, b: seq<string>, uploads: seq<Upload>, seedName: string)
    ensures Matches(a + b, uploads, seedName) == Matches(a, uploads, seedName) + Matches(b, uploads, seedName)
    decreases |b|
  {
    if |b| == 0 {
      assert a + b == a;
    } else {
      var b' := b[..|b| - 1];
      assert (a + b)[..|a + b| - 1] == a + b';
      assert (a + b)[|a + b| - 1] == b[|b| - 1];
      MatchesAppend(a, b', uploads, seedName);
    }
  }

  /** One token contributes its first match, or nothing when no upload qualifies. */
  lemma OneToken(token: string, uploads: seq<Upload>, seedName: string)
    ensures Matches([token], uploads, seedName) == ToSeq(FirstMatch(token, uploads, seedName))
  {
  }

  /** Every match is an upload that qualifies for some token, so never one carrying the seed's name. */
  lemma {:induction false} MatchesQualify(tokens: seq<string>, uploads: seq<Upload>, seedName: string)
    ensures forall u :: u in Matches(tokens, uploads, seedName) ==>
      u in uploads && u.name != seedName && exists t :: t in tokens && Qualifies(t, u, seedName)
    decreases |tokens|
  {
    if |tokens| > 0 {
      var init, last := tokens[..|tokens| - 1], tokens[|tokens| - 1];
      MatchesQualify(init, uploads, seedName);
      FirstMatchSpec(last, uploads, seedName);
      forall u | u in Matches(tokens, uploads, seedName)
        ensures u in uploads && u.name != seedName && exists t :: t in tokens && Qualifies(t, u, seedName)
      {
        if u in Matches(init, uploads, seedName) {
          var t :| t in init && Qualifies(t, u, seedName);
          assert t in tokens;
        } else {
          assert u == FirstMatch(last, uploads, seedName).value;
          assert last in tokens;
        }
      }
    }
  }

  /** The seed's upload when its name is among the uploads, then the matches, cut to four. */
  function Resolve(tokens: seq<string>, uploads: seq<Upload>, seedName: string): (r: seq<Upload>)
    ensures |r| <= SetSize
  {
    Prefix(ToSeq(FileByName(seedName, uploads)) + Matches(tokens, uploads, seedName), SetSize)
  }

  /**
   * The resolved set holds at most four uploads. When the seed's name is among the uploads
   * its first upload of that name comes first, followed by the matches; otherwise the set
   * is the matches alone. The set is as long as that whole list allows, up to four.
   */
  lemma ResolveShape(tokens: seq<string>, uploads: seq<Upload>, seedName: string)
    ensures var r := Resolve(tokens, uploads, seedName);
      var m := Matches(tokens, uploads, seedName);
      && |r| <= SetSize
      && (FileByName(seedName, uploads).Some? ==>
            |r| == (if |m| < SetSize - 1 then 1 + |m| else SetSize) &&
            r[0] == FileByName(seedName, uploads).value && r[0].name == seedName && r[1..] <= m)
      && (FileByName(seedName, uploads).None? ==>
            r <= m && |r| == (if |m| < SetSize then |m| else SetSize))
  {
    FileByNameSpec(seedName, uploads);
  }

  /**
   * After the seed (or from the start, when its name is not among the uploads), every entry
   * is an upload that does not carry the seed's name and that qualifies for some token.
   */
  lemma ResolvedEntriesQualify(tokens: seq<string>, uploads: seq<Upload>, seedName: string)
    ensures var r := Resolve(tokens, uploads, seedName);
      var first := if FileByName(seedName, uploads).Some? then 1 else 0;
      forall k :: first <= k < |r| ==>
        r[k] in uploads && r[k].name != seedName && exists t :: t in tokens && Qualifies(t, r[k], seedName)
  {
    var r := Resolve(tokens, uploads, seedName);
    var m := Matches(tokens, uploads, seedName);
    var first := if FileByName(seedName, uploads).Some? then 1 else 0;
    ResolveShape(tokens, uploads, seedName);
    MatchesQualify(tokens, uploads, seedName);
    forall k | first <= k < |r|
      ensures r[k] in uploads && r[k].name != seedName && exists t :: t in tokens && Qualifies(t, r[k], seedName)
    {
      assert r[k] == m[k - first];
    }
  }

  /**
   * The resolver loop of the result tab: for each token the inner loop scans the uploads
   * and appends the first that qualifies, then breaks; the seed found by name is inserted
   * at index 0 and the list is cut to four.
   */
  method ResolveReferences(tokens: seq<string>, uploads: seq<Upload>, seedName: string)
    returns (targetFiles: seq<Upload>)
    ensures targetFiles == Resolve(tokens, uploads, seedName)
  {
    targetFiles := [];
    var seedObj := GetFileByName(seedName, uploads);
    var t := 0;
    while t < |tokens|
      invariant 0 <= t <= |tokens|
      invariant targetFiles == Matches(tokens[..t], uploads, seedName)
    {
      var name := tokens[t];
      assert tokens[..t + 1][..t] == tokens[..t];
      var found := false;
      var k := 0;
      while k < |uploads|
        invariant 0 <= k <= |uploads|
        invariant !found && targetFiles == Matches(tokens[..t], uploads, seedName)
        invariant FirstMatch(name, uploads, seedName) == FirstMatch(name, uploads[k..], seedName)
      {
        var up := uploads[k];
        assert uploads[k..][1..] == uploads[k + 1..];
        if Contains(up.name, name) || Contains(name, up.name) {
          if up.name != seedName {
            targetFiles := targetFiles + [up];
            found := true;
            break;
          }
        }
        k := k + 1;
      }
      assert found ==> targetFiles == Matches(tokens[..t], uploads, seedName) + [FirstMatch(name, uploads, seedName).value];
      t := t + 1;
    }
    assert tokens[..t] == tokens;
    if seedObj.Some? {
      targetFiles := [seedObj.value] + targetFiles;
    }
    targetFiles := Prefix(targetFiles, SetSize);
  }
}
