/** The order for which the Polish collation is there: an alphabet in the code ISO 8859-2. */
module PolishOrder {
  import opened Collation
  import opened Polish

  // ----- the alphabet: of every letter first the small ones, with accents, then the capitals

  /** The n bytes from `first` on. */
  function Bytes(first: nat, n: nat): (r: seq<Byte>)
    requires first + n <= 256
    ensures |r| == n
  {
    seq(n, i requires 0 <= i < n => (first + i) as Byte)
  }

  function LettersAB(): seq<Byte> {
    [97, 225, 226, 227, 228, 65, 193, 194, 195, 196, 177, 161, 98, 66]
  }

  function LettersCD(): seq<Byte> {
    [99, 231, 232, 67, 199, 200, 230, 198, 100, 239, 240, 68, 207, 208]
  }

  function LettersEToG(): seq<Byte> {
    [101, 233, 235, 236, 69, 201, 203, 204, 234, 202, 102, 70, 103, 71]
  }

  function LettersHToK(): seq<Byte> {
    [104, 72, 105, 237, 238, 73, 205, 206, 106, 74, 107, 75]
  }

  function LettersLM(): seq<Byte> {
    [108, 181, 229, 76, 165, 197, 179, 163, 109, 77]
  }

  function LettersN(): seq<Byte> {
    [110, 242, 78, 210, 241, 209]
  }

  function LettersOToQ(): seq<Byte> {
    [111, 244, 245, 246, 79, 212, 213, 214, 243, 211, 112, 80, 113, 81]
  }

  function LettersRS(): seq<Byte> {
    [114, 224, 248, 82, 192, 216, 115, 185, 186, 83, 169, 170, 182, 166]
  }

  function LettersT(): seq<Byte> {
    [116, 187, 254, 84, 171, 222]
  }

  function LettersUToW(): seq<Byte> {
    [117, 249, 250, 251, 252, 85, 217, 218, 219, 220, 118, 86, 119, 87]
  }

  function LettersXToZ(): seq<Byte> {
    [120, 88, 121, 253, 89, 221, 122, 190, 90, 174, 188, 172, 191, 175]
  }

  /** The other signs of the code. */
  function Signs(): seq<Byte> {
    [91, 92, 93, 94, 95, 96, 123, 124, 125, 126, 162, 164, 167, 168, 173, 176, 178, 180, 183, 184, 189, 215, 247]
  }

  function LettersAToM(): seq<Byte> {
    LettersAB() + LettersCD() + LettersEToG() + LettersHToK() + LettersLM()
  }

  function LettersNToZ(): seq<Byte> {
    LettersN() + LettersOToQ() + LettersRS() + LettersT() + LettersUToW() + LettersXToZ()
  }

  function Alphabet(): seq<Byte> {
    Bytes(0, 65) + LettersAToM() + LettersNToZ() + Signs() + Bytes(127, 34) + [223, 255]
  }

  // ----- the table follows the alphabet

  /** The table gives these bytes the places from `first` on. */
  predicate Places(s: seq<Byte>, first: int) {
    forall i :: 0 <= i < |s| ==> XformTable(s[i]) as int == first + i
  }

  lemma Join(s: seq<Byte>, t: seq<Byte>, first: int)
    requires Places(s, first) && Places(t, first + |s|)
    ensures Places(s + t, first)
  {
  }

  lemma PlacesAB()
    ensures Places(LettersAB(), 65)
  {
  }

  lemma PlacesCD()
    ensures Places(LettersCD(), 79)
  {
  }

  lemma PlacesEToG()
    ensures Places(LettersEToG(), 93)
  {
  }

  lemma PlacesHToK()
    ensures Places(LettersHToK(), 107)
  {
  }

  lemma PlacesLM()
    ensures Places(LettersLM(), 119)
  {
  }

  lemma PlacesN()
    ensures Places(LettersN(), 129)
  {
  }

  lemma PlacesOToQ()
    ensures Places(LettersOToQ(), 135)
  {
  }

  lemma PlacesRS()
    ensures Places(LettersRS(), 149)
  {
  }

  lemma PlacesT()
    ensures Places(LettersT(), 163)
  {
  }

  lemma PlacesUToW()
    ensures Places(LettersUToW(), 169)
  {
  }

  lemma PlacesXToZ()
    ensures Places(LettersXToZ(), 183)
  {
  }

  lemma PlacesSigns()
    ensures Places(Signs(), 197)
  {
  }

  lemma PlacesAToM()
    ensures |LettersAToM()| == 64 && Places(LettersAToM(), 65)
  {
    PlacesAB();
    PlacesCD();
    PlacesEToG();
    PlacesHToK();
    PlacesLM();
    Join(LettersAB(), LettersCD(), 65);
    Join(LettersAB() + LettersCD(), LettersEToG(), 65);
    Join(LettersAB() + LettersCD() + LettersEToG(), LettersHToK(), 65);
    Join(LettersAB() + LettersCD() + LettersEToG() + LettersHToK(), LettersLM(), 65);
  }

  lemma PlacesNToZ()
    ensures |LettersNToZ()| == 68 && Places(LettersNToZ(), 129)
  {
    PlacesN();
    PlacesOToQ();
    PlacesRS();
    PlacesT();
    PlacesUToW();
    PlacesXToZ();
    Join(LettersN(), LettersOToQ(), 129);
    Join(LettersN() + LettersOToQ(), LettersRS(), 129);
    Join(LettersN() + LettersOToQ() + LettersRS(), LettersT(), 129);
    Join(LettersN() + LettersOToQ() + LettersRS() + LettersT(), LettersUToW(), 129);
    Join(LettersN() + LettersOToQ() + LettersRS() + LettersT() + LettersUToW(), LettersXToZ(), 129);
  }

  lemma PlacesBytes()
    ensures Places(Bytes(0, 65), 0) && Places(Bytes(127, 34), 220) && Places([223, 255], 254)
  {
  }

  /** The place of every byte in the table is that in the alphabet. */
  lemma AlphabetPlaces()
    ensures |Alphabet()| == 256 && Places(Alphabet(), 0)
  {
    PlacesBytes();
    PlacesAToM();
    PlacesNToZ();
    PlacesSigns();
    Join(Bytes(0, 65), LettersAToM(), 0);
    Join(Bytes(0, 65) + LettersAToM(), LettersNToZ(), 0);
    Join(Bytes(0, 65) + LettersAToM() + LettersNToZ(), Signs(), 0);
    Join(Bytes(0, 65) + LettersAToM() + LettersNToZ() + Signs(), Bytes(127, 34), 0);
    Join(Bytes(0, 65) + LettersAToM() + LettersNToZ() + Signs() + Bytes(127, 34), [223, 255], 0);
  }

  // ----- the order

  /** a comes before b in the alphabet. */
  predicate Earlier(a: Byte, b: Byte) {
    exists i, j :: 0 <= i < j < |Alphabet()| && Alphabet()[i] == a && Alphabet()[j] == b
  }

  lemma EarlierIff(a: Byte, b: Byte)
    ensures Earlier(a, b) <==> XformTable(a) < XformTable(b)
  {
    AlphabetPlaces();
    AtPlace(a);
    AtPlace(b);
    if XformTable(a) < XformTable(b) {
      assert Alphabet()[XformTable(a) as int] == a && Alphabet()[XformTable(b) as int] == b;
    }
  }

  lemma AtPlace(b: Byte)
    ensures |Alphabet()| == 256 && Alphabet()[XformTable(b) as int] == b
  {
    AlphabetPlaces();
    var c := Alphabet()[XformTable(b) as int];
    XformUndone(b);
    XformUndone(c);
  }

  /** The first byte in which they differ decides by the alphabet, and a string comes before its extensions. */
  predicate ComesFirst(a: seq<Byte>, b: seq<Byte>) {
    b != [] && (a == [] || Earlier(a[0], b[0]) || (a[0] == b[0] && ComesFirst(a[1..], b[1..])))
  }

  /** The images of strings are in the order of bytes exactly when the strings are in that of the alphabet. */
  lemma {:induction false} PolishOrderIff(a: seq<Byte>, b: seq<Byte>)
    ensures Less(PolishXform(a), PolishXform(b)) <==> ComesFirst(a, b)
  {
    if a != [] && b != [] {
      EarlierIff(a[0], b[0]);
      XformUndone(a[0]);
      XformUndone(b[0]);
      assert PolishXform(a)[1..] == PolishXform(a[1..]) && PolishXform(b)[1..] == PolishXform(b[1..]);
      PolishOrderIff(a[1..], b[1..]);
    }
  }

  /** Each of these comes directly or indirectly before the next. */
  predicate InOrder(s: seq<Byte>) {
    forall i :: 0 < i < |s| ==> Earlier(s[i - 1], s[i])
  }

  predicate Rising(s: seq<Byte>) {
    forall i :: 0 < i < |s| ==> XformTable(s[i - 1]) < XformTable(s[i])
  }

  lemma RisingInOrder(s: seq<Byte>)
    requires Rising(s)
    ensures InOrder(s)
  {
    forall i | 0 < i < |s|
      ensures Earlier(s[i - 1], s[i])
    {
      EarlierIff(s[i - 1], s[i]);
    }
  }

  // ----- the letters of Polish in the order of its dictionaries, small before capital

  lemma PolishAToD()
    ensures InOrder([97, 65, 177, 161, 98, 66, 99, 67, 230, 198, 100, 68])
  {
    RisingInOrder([97, 65, 177, 161, 98, 66, 99, 67, 230, 198, 100, 68]);
  }

  lemma PolishDToH()
    ensures InOrder([100, 68, 101, 69, 234, 202, 102, 70, 103, 71, 104, 72])
  {
    RisingInOrder([100, 68, 101, 69, 234, 202, 102, 70, 103, 71, 104, 72]);
  }

  lemma PolishHToM()
    ensures InOrder([104, 72, 105, 73, 106, 74, 107, 75, 108, 76, 179, 163, 109, 77])
  {
    RisingInOrder([104, 72, 105, 73, 106, 74, 107, 75, 108, 76, 179, 163, 109, 77]);
  }

  lemma PolishMToP()
    ensures InOrder([109, 77, 110, 78, 241, 209, 111, 79, 243, 211, 112, 80])
  {
    RisingInOrder([109, 77, 110, 78, 241, 209, 111, 79, 243, 211, 112, 80]);
  }

  lemma PolishPToS()
    ensures InOrder([112, 80, 113, 81, 114, 82, 115, 83, 182, 166])
  {
    RisingInOrder([112, 80, 113, 81, 114, 82, 115, 83, 182, 166]);
  }

  lemma PolishSToW()
    ensures InOrder([182, 166, 116, 84, 117, 85, 118, 86, 119, 87])
  {
    RisingInOrder([182, 166, 116, 84, 117, 85, 118, 86, 119, 87]);
  }

  lemma PolishWToZ()
    ensures InOrder([119, 87, 120, 88, 121, 89, 122, 90, 188, 172, 191, 175])
  {
    RisingInOrder([119, 87, 120, 88, 121, 89, 122, 90, 188, 172, 191, 175]);
  }

  /** a A, a with a tail, b, c, c with a stroke, d, e, e with a tail, and so on to z with a stroke and z with a dot. */
  lemma PolishLetters()
    ensures InOrder([97, 65, 177, 161, 98, 66, 99, 67, 230, 198, 100, 68])
    ensures InOrder([100, 68, 101, 69, 234, 202, 102, 70, 103, 71, 104, 72])
    ensures InOrder([104, 72, 105, 73, 106, 74, 107, 75, 108, 76, 179, 163, 109, 77])
    ensures InOrder([109, 77, 110, 78, 241, 209, 111, 79, 243, 211, 112, 80])
    ensures InOrder([112, 80, 113, 81, 114, 82, 115, 83, 182, 166])
    ensures InOrder([182, 166, 116, 84, 117, 85, 118, 86, 119, 87])
    ensures InOrder([119, 87, 120, 88, 121, 89, 122, 90, 188, 172, 191, 175])
  {
    PolishAToD();
    PolishDToH();
    PolishHToM();
    PolishMToP();
    PolishPToS();
    PolishSToW();
    PolishWToZ();
  }
}
