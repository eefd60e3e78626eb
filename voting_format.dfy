/**
 * The voting format of a round and its one-character (menu) and word
 * (voting file) spellings (src/voting_format.cpp).
 */
module VotingFormats {

  /** The formats in the order the program's enum declares them. */
  datatype VotingFormat = Invalid | Full | Ranked | Reduced

  /** Formats scheduled as a fixed list of pairs. */
  predicate IsScoreFormat(f: VotingFormat)
  {
    f == Full || f == Reduced
  }

  /**
   * `characterToVotingFormat`: the menu letters 'f', 'r' and 'i'; every
   * other character is Invalid.
   */
  function CharacterToVotingFormat(c: char): (f: VotingFormat)
    ensures f == Full <==> c == 'f'
    ensures f == Reduced <==> c == 'r'
    ensures f == Ranked <==> c == 'i'
    ensures f == Invalid <==> c !in {'f', 'r', 'i'}
  {
    match c
    case 'f' => Full
    case 'r' => Reduced
    case 'i' => Ranked
    case _ => Invalid
  }

  /** `stringToVotingFormat`: only the exact words are accepted. */
  function StringToVotingFormat(s: string): (f: VotingFormat)
    ensures f != Invalid <==> s in {"full", "reduced", "ranked"}
    ensures f != Invalid ==> s == VotingFormatToString(f)
  {
    if s == "reduced" then Reduced
    else if s == "full" then Full
    else if s == "ranked" then Ranked
    else Invalid
  }

  /**
   * `votingFormatToString`: the word written to a voting file. Reading it
   * back gives the same format, Invalid included (it is written as "").
   */
  function VotingFormatToString(f: VotingFormat): (s: string)
    ensures f == Invalid <==> s == ""
    ensures f != Invalid ==> s in {"full", "reduced", "ranked"}
  {
    match f
    case Full => "full"
    case Reduced => "reduced"
    case Ranked => "ranked"
    case Invalid => ""
  }

  /** Writing a format and reading it back gives the same format. */
  lemma FormatRoundTrip(f: VotingFormat)
    ensures StringToVotingFormat(VotingFormatToString(f)) == f
  {
    if f == Invalid {
      assert VotingFormatToString(f) !in {"full", "reduced", "ranked"};
    }
  }

  /** The three valid formats are written as three different words. */
  lemma FormatWordsDistinct(f: VotingFormat, g: VotingFormat)
    requires f != Invalid && g != Invalid && f != g
    ensures VotingFormatToString(f) != VotingFormatToString(g)
  {
    FormatRoundTrip(f);
    FormatRoundTrip(g);
  }
}
