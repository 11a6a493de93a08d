/**
 * Concrete runs of the resolver on a small batch. The batch and the tokens are passed
 * as parameters fixed by the requires clauses, which keeps the solver from unfolding
 * the upload scan of `FirstMatch` on every literal.
 */
module Scenarios {
  import opened Wrappers
  import opened Strings
  import opened Uploads
  import opened Resolver

  function Photo(name: string): Upload { Upload(name, []) }

  /** Five photos A.jpg .. E.jpg, uploaded in that order. */
  function Batch(): seq<Upload>
  {
    [Photo("A.jpg"), Photo("B.jpg"), Photo("C.jpg"), Photo("D.jpg"), Photo("E.jpg")]
  }

  /** An upload that does not qualify for the token is skipped by the scan. */
  lemma Skip(token: string, ups: seq<Upload>, seedName: string)
    requires |ups| > 0 && !Qualifies(token, ups[0], seedName)
    ensures FirstMatch(token, ups, seedName) == FirstMatch(token, ups[1..], seedName)
  {
  }

  /** A token without its extension finds the file it names and not its neighbour. */
  lemma TruncatedTokenMatches(token: string, ups: seq<Upload>)
    requires token == "IMG_001" && ups == [Photo("IMG_002.jpg"), Photo("IMG_001.jpg")]
    ensures FirstMatch(token, ups, "seed.jpg") == Some(ups[1])
  {
    var other := ups[0].name;
    assert !Contains(other, token) by {
      assert other[6] != token[6];
      FirstCharAbsent(other[1..], token);
      if Contains(other, token) { ContainsUnfold(other, token); }
    }
    LongerAbsent(token, other);
    Skip(token, ups, "seed.jpg");
  }

  /** The token A names only the seed, which resolution skips. */
  lemma SeedTokenFindsNothing(token: string, ups: seq<Upload>)
    requires token == "A" && ups == Batch()
    ensures FirstMatch(token, ups, "A.jpg") == None
  {
    forall k | 0 <= k < |ups| ensures !Qualifies(token, ups[k], "A.jpg") {
      LongerAbsent(token, ups[k].name);
      if k > 0 { FirstCharAbsent(ups[k].name, token); }
    }
    FirstMatchSpec(token, ups, "A.jpg");
  }

  /** The token C finds C.jpg, skipping the two uploads before it. */
  lemma TokenFindsItsFile(token: string, ups: seq<Upload>)
    requires token == "C" && ups == Batch()
    ensures FirstMatch(token, ups, "A.jpg") == Some(Photo("C.jpg"))
  {
    FirstCharAbsent(ups[0].name, token);
    LongerAbsent(token, ups[0].name);
    FirstCharAbsent(ups[1].name, token);
    LongerAbsent(token, ups[1].name);
    Skip(token, ups, "A.jpg");
    Skip(token, ups[1..], "A.jpg");
    assert ups[1..][1..][0] == Photo("C.jpg");
  }

  /** A token longer than every name, holding none of their first letters, finds nothing. */
  lemma {:induction false} ForeignTokenFindsNothing(token: string, ups: seq<Upload>, seedName: string)
    requires forall k :: 0 <= k < |ups| ==>
      0 < |ups[k].name| < |token| && ups[k].name[0] !in token
    ensures FirstMatch(token, ups, seedName) == None
  {
    if |ups| > 0 {
      LongerAbsent(ups[0].name, token);
      FirstCharAbsent(token, ups[0].name);
      ForeignTokenFindsNothing(token, ups[1..], seedName);
    }
  }

  /** A token unrelated to every name finds nothing. */
  lemma UnrelatedTokenFindsNothing(token: string, ups: seq<Upload>)
    requires token == "zzz-no-match" && ups == Batch()
    ensures FirstMatch(token, ups, "A.jpg") == None
  {
    ForeignTokenFindsNothing(token, ups, "A.jpg");
  }

  /**
   * Seed A.jpg and tokens A, C and one that matches nothing: the token naming the seed adds
   * nothing, C adds C.jpg, and the set stays at two photos because nothing pads it.
   */
  lemma UnderResolvedSetIsNotPadded(tokens: seq<string>, ups: seq<Upload>)
    requires tokens == ["A", "C", "zzz-no-match"] && ups == Batch()
    ensures Resolve(tokens, ups, "A.jpg") == [Photo("A.jpg"), Photo("C.jpg")]
  {
    SeedTokenFindsNothing(tokens[0], ups);
    TokenFindsItsFile(tokens[1], ups);
    UnrelatedTokenFindsNothing(tokens[2], ups);
    var t2 := tokens[..2];
    var t1 := t2[..1];
    assert t1[..0] == [] && t1[0] == tokens[0] && t2[1] == tokens[1];
    assert Matches(t1, ups, "A.jpg") == [];
    assert Matches(t2, ups, "A.jpg") == [Photo("C.jpg")];
    assert Matches(tokens, ups, "A.jpg") == [Photo("C.jpg")];
    assert FileByName("A.jpg", ups) == Some(Photo("A.jpg"));
  }

  /** Behind the seed's own upload, a token that is a prefix of the second name picks that upload. */
  lemma PrefixPicksSecond(token: string, ups: seq<Upload>, seedName: string)
    requires |ups| > 1 && ups[0].name == seedName && ups[1].name != seedName && token <= ups[1].name
    ensures FirstMatch(token, ups, seedName) == Some(ups[1])
  {
    Skip(token, ups, seedName);
    assert ups[1..][0] == ups[1];
  }

  /** Two tokens that pick the same upload contribute it twice, in token order. */
  lemma SamePickTwice(t0: string, t1: string, ups: seq<Upload>, seedName: string, u: Upload)
    requires FirstMatch(t0, ups, seedName) == Some(u) && FirstMatch(t1, ups, seedName) == Some(u)
    ensures Matches([t0, t1], ups, seedName) == [u, u]
  {
    assert [t0, t1] == [t0] + [t1];
    MatchesAppend([t0], [t1], ups, seedName);
    OneToken(t0, ups, seedName);
    OneToken(t1, ups, seedName);
  }

  /** Two tokens that both name B.jpg put it in the set twice: the resolver does not de-duplicate. */
  lemma RepeatedUploadKept(tokens: seq<string>, ups: seq<Upload>)
    requires tokens == ["B", "B.jpg"] && ups == Batch()
    ensures Resolve(tokens, ups, "A.jpg") == [Photo("A.jpg"), Photo("B.jpg"), Photo("B.jpg")]
  {
    PrefixPicksSecond(tokens[0], ups, "A.jpg");
    PrefixPicksSecond(tokens[1], ups, "A.jpg");
    SamePickTwice(tokens[0], tokens[1], ups, "A.jpg", ups[1]);
    assert FileByName("A.jpg", ups) == Some(ups[0]);
  }
}
