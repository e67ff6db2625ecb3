/**
 * `MemberTokenAuthentication.authenticate`: the guard chain over the split
 * `Authorization` header, ending in a read-only lookup of the token table.
 */
module TokenAuth {
  import opened Wrappers
  import opened Bytes

  import Accounts

  /** `self.keyword.lower().encode()`: the bytes of "token". */
  const Keyword: seq<byte> := [0x74, 0x6F, 0x6B, 0x65, 0x6E]

  const NoCredentials := "Invalid token header. No credentials provided."
  const HasSpaces := "Invalid token header. Token string should not contain spaces."
  const BadCharacters := "Invalid token header. Token string should not contain invalid characters."
  const InvalidToken := "Invalid token."

  /**
   * None (another scheme may try), AuthenticationFailed(message), or the
   * token's member together with the token.
   */
  datatype Outcome = Anonymous | Failed(message: string) | Authenticated(member: nat, key: string)

  function Authenticate(header: seq<byte>, tokens: Accounts.Tokens): (r: Outcome)
    ensures r.Anonymous? <==> |Split(header)| == 0 || Lower(Split(header)[0]) != Keyword
    ensures r.Authenticated? ==> r.key in tokens && tokens[r.key] == r.member
    ensures r.Authenticated? ==> |Split(header)| == 2 && Utf8Decode(Split(header)[1]) == Some(r.key)
    ensures r.Failed? ==> r.message in {NoCredentials, HasSpaces, BadCharacters, InvalidToken}
    ensures var ws := Split(header);
            |ws| > 0 && Lower(ws[0]) == Keyword ==>
              && (|ws| == 1 ==> r == Failed(NoCredentials))
              && (|ws| > 2 ==> r == Failed(HasSpaces))
              && (|ws| == 2 && Utf8Decode(ws[1]).None? ==> r == Failed(BadCharacters))
              && (|ws| == 2 && Utf8Decode(ws[1]).Some? && Utf8Decode(ws[1]).value !in tokens
                  ==> r == Failed(InvalidToken))
              && (|ws| == 2 && Utf8Decode(ws[1]).Some? && Utf8Decode(ws[1]).value in tokens
                  ==> r.Authenticated?)
  {
    var words := Split(header);
    if |words| == 0 then Anonymous
    else if Lower(words[0]) != Keyword then Anonymous
    else if |words| == 1 then Failed(NoCredentials)
    else if |words| > 2 then Failed(HasSpaces)
    else
      match Utf8Decode(words[1])
      case None => Failed(BadCharacters)
      case Some(key) =>
        if key in tokens then Authenticated(tokens[key], key) else Failed(InvalidToken)
  }

  /** An empty or all-whitespace header is anonymous, not a failure. */
  lemma EmptyHeaderIsAnonymous(header: seq<byte>, tokens: Accounts.Tokens)
    requires forall i :: 0 <= i < |header| ==> IsAsciiSpace(header[i])
    ensures Authenticate(header, tokens) == Anonymous
  {
    SplitAllSpaces(header);
  }

  /** The keyword alone, in any letter case, fails for lack of credentials. */
  lemma KeywordAloneFails(word: seq<byte>, tokens: Accounts.Tokens)
    requires |word| > 0 && NoSpace(word) && Lower(word) == Keyword
    ensures Authenticate(word, tokens) == Failed(NoCredentials)
  {
    SplitOneWord(word);
  }

  /** The keyword, a space, and a key with no whitespace: the key decides. */
  lemma {:induction false} TwoWordHeader(word: seq<byte>, key: seq<byte>, tokens: Accounts.Tokens)
    requires |word| > 0 && NoSpace(word) && Lower(word) == Keyword
    requires |key| > 0 && NoSpace(key)
    ensures Authenticate(word + [0x20] + key, tokens)
         == match Utf8Decode(key)
            case None => Failed(BadCharacters)
            case Some(k) => if k in tokens then Authenticated(tokens[k], k) else Failed(InvalidToken)
  {
    SplitTwoWords(word, key);
  }

  lemma Regroup(a: seq<byte>, b: seq<byte>, c: seq<byte>, d: seq<byte>)
    ensures a + b + c + d == a + (b + (c + d))
  {
  }

  /**
   * The keyword and a key followed by any run of whitespace and then
   * anything else fails with the spaces message, whatever the token table holds.
   */
  lemma ExtraWordsFail(word: seq<byte>, key: seq<byte>, sep: seq<byte>, rest: seq<byte>, tokens: Accounts.Tokens)
    requires |word| > 0 && NoSpace(word) && Lower(word) == Keyword
    requires |key| > 0 && NoSpace(key)
    requires |sep| > 0 && forall i :: 0 <= i < |sep| ==> IsAsciiSpace(sep[i])
    requires |rest| > 0 && !IsAsciiSpace(rest[0])
    ensures Authenticate(word + [0x20] + key + sep + rest, tokens) == Failed(HasSpaces)
  {
    var sp: seq<byte> := [0x20];
    var tail := key + (sep + rest);
    Regroup(word, sp, key, sep + rest);
    assert word + sp + key + sep + rest == word + sp + key + (sep + rest);
    SplitCons(word, sp + tail);
    SplitSkipsSpace(tail, 0x20);
    SplitCons(key, sep + rest);
    SplitSkipsSpaces(sep, rest);
    assert Split(rest) != [] by {
      assert DropSpaces(rest) == rest;
    }
    var ws := Split(word + sp + key + sep + rest);
    assert ws == [word] + ([key] + Split(rest));
    assert |ws| > 2 && ws[0] == word;
  }

  /** "Token <key>" with an ASCII key free of whitespace authenticates as the key's member, if any. */
  lemma {:induction false} TokenHeaderAuthenticates(key: string, tokens: Accounts.Tokens)
    requires |key| > 0 && IsAscii(key)
    requires forall i :: 0 <= i < |key| ==> !IsAsciiSpace(key[i] as int)
    ensures Authenticate([0x54, 0x6F, 0x6B, 0x65, 0x6E, 0x20] + AsciiBytes(key), tokens)
         == if key in tokens then Authenticated(tokens[key], key) else Failed(InvalidToken)
  {
    var word: seq<byte> := [0x54, 0x6F, 0x6B, 0x65, 0x6E];
    var kb := AsciiBytes(key);
    assert Lower(word) == Keyword;
    assert [0x54, 0x6F, 0x6B, 0x65, 0x6E, 0x20] + kb == word + [0x20] + kb;
    TwoWordHeader(word, kb, tokens);
    DecodeAscii(key);
  }
}
