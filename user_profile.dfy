/** src/components/UserProfile.tsx: `getInitials`, the avatar's fallback text:
    `name.split(' ').map(word => word[0]).join('').toUpperCase().slice(0, 2)`. */
module UserProfile {
  import opened Strings
  import opened Collections

  /** A piece of the name that has a first character. */
  function NonEmpty(): string -> bool
  {
    (w: string) => w != ""
  }

  /** `words.map(word => word[0]).join('')`: an empty word's `word[0]` is
      `undefined`, which `join` renders as "", so only non-empty words count. */
  function FirstLetters(words: seq<string>): (r: string)
    ensures |r| == |Filter(words, NonEmpty())|
    ensures forall k :: 0 <= k < |r| ==> r[k] == Filter(words, NonEmpty())[k][0]
  {
    if words == [] then ""
    else (if words[0] == "" then "" else [words[0][0]]) + FirstLetters(words[1..])
  }

  /** The words of a name that contribute an initial. */
  function Words(name: string): seq<string>
  {
    Filter(Split(name, ' '), NonEmpty())
  }

  /** `getInitials(name)`: the upper-cased first letters of the first two
      non-empty words, in order. */
  function GetInitials(name: string): (r: string)
    ensures |r| <= 2
    ensures |r| == if |Words(name)| < 2 then |Words(name)| else 2
    ensures forall k :: 0 <= k < |r| ==> r[k] == UpperChar(Words(name)[k][0])
  {
    var letters := Upper(FirstLetters(Split(name, ' ')));
    if |letters| < 2 then letters else letters[..2]
  }

  /** The empty name has no initials. */
  lemma EmptyNameNoInitials()
    ensures GetInitials("") == ""
  {
    assert Split("", ' ') == [""];
  }

  /** A one-word name gives one initial. */
  lemma OneWordOneInitial(word: string)
    requires word != "" && ' ' !in word
    ensures GetInitials(word) == [UpperChar(word[0])]
  {
    assert Words(word) == [word];
  }

  /** Leading spaces contribute nothing. */
  lemma LeadingSpaceIgnored(name: string)
    ensures GetInitials(" " + name) == GetInitials(name)
  {
    SplitAround("", name, ' ');
    assert "" + [' '] + name == " " + name;
    FilterAppend([""], Split(name, ' '), NonEmpty());
  }

  /** Repeated spaces between words contribute nothing either. */
  lemma RepeatedSpaceIgnored(a: string, b: string)
    ensures GetInitials(a + "  " + b) == GetInitials(a + " " + b)
  {
    assert a + "  " + b == a + [' '] + (" " + b);
    assert a + " " + b == a + [' '] + b;
    WordsAround(a, " " + b);
    WordsAround(a, b);
    LeadingSpaceWords(b);
    SameWordsSameInitials(a + "  " + b, a + " " + b);
  }

  /** The words on either side of a space are the words of the whole. */
  lemma WordsAround(a: string, b: string)
    ensures Words(a + [' '] + b) == Words(a) + Words(b)
  {
    SplitAround(a, b, ' ');
    FilterAppend(Split(a, ' '), Split(b, ' '), NonEmpty());
  }

  /** A leading space adds no word. */
  lemma LeadingSpaceWords(b: string)
    ensures Words(" " + b) == Words(b)
  {
    LeadingSpaceSplit(b);
    FilterAppend([""], Split(b, ' '), NonEmpty());
  }

  /** The initials depend on the name only through its words. */
  lemma SameWordsSameInitials(n1: string, n2: string)
    requires Words(n1) == Words(n2)
    ensures GetInitials(n1) == GetInitials(n2)
  {
    var r1, r2 := GetInitials(n1), GetInitials(n2);
    assert |r1| == |r2|;
    forall k | 0 <= k < |r1| ensures r1[k] == r2[k] {
    }
  }

  /** Splitting after a leading space adds one empty piece in front. */
  lemma LeadingSpaceSplit(b: string)
    ensures Split(" " + b, ' ') == [""] + Split(b, ' ')
  {
    SplitAround("", b, ' ');
    assert "" + [' '] + b == " " + b;
  }

  /** A name of three space-separated words takes the initials of the first two. */
  lemma ThreeWordInitials(a: string, b: string, c: string)
    requires a != "" && b != "" && c != ""
    requires ' ' !in a && ' ' !in b && ' ' !in c
    ensures GetInitials(a + " " + b + " " + c) == [UpperChar(a[0]), UpperChar(b[0])]
  {
    var tail := b + [' '] + c;
    SplitAround(b, c, ' ');
    assert a + " " + b + " " + c == a + [' '] + tail;
    SplitAround(a, tail, ' ');
    FilterAll([a, b, c], NonEmpty());
    assert Words(a + " " + b + " " + c) == [a, b, c];
  }

  /** The profile shown in the header, "Dr. María González", falls back to "DM". */
  lemma ProfileFallback()
    ensures GetInitials("Dr. María González") == "DM"
  {
    assert "Dr. María González" == "Dr." + " " + "María" + " " + "González";
    ThreeWordInitials("Dr.", "María", "González");
  }
}
