/** Persona selection (server/utilis/Persona.ts): a roast level picks one of
    four fixed role/traits/instruction triples, unknown levels fall back to the
    gentle one, and the triple is rendered into one trimmed prompt paragraph. */
module Persona {
  import opened Wrappers
  import opened JsText

  /** The four levels of the roast_level enumeration. */
  datatype Level = Gentle | Firm | Toxic | Unhinged

  datatype Descriptor = Descriptor(role: string, traits: string, instruction: string)

  /** The key under which a level's persona is stored. */
  function Key(l: Level): string
  {
    match l
    case Gentle => "gentle"
    case Firm => "firm"
    case Toxic => "toxic"
    case Unhinged => "unhinged"
  }

  const Keys: set<string> := {"gentle", "firm", "toxic", "unhinged"}

  /** The lookup `personas[level] || personas.gentle`: one of the four keys
      selects its own level, anything else (null included) falls back to
      Gentle. */
  function Resolve(level: Option<string>): (l: Level)
    ensures level.Some? && level.value in Keys ==> Key(l) == level.value
    ensures !(level.Some? && level.value in Keys) ==> l == Gentle
  {
    if level == Some("firm") then Firm
    else if level == Some("toxic") then Toxic
    else if level == Some("unhinged") then Unhinged
    else Gentle
  }

  const GentlePersona := Descriptor(
    "Supportive Life Coach",
    "Empathetic, encouraging, uses 'we' phrasing.",
    "Remind them they are capable, but these tasks need love.")
  const FirmPersona := Descriptor(
    "Strict Life Manager",
    "Direct, no-nonsense, values efficiency over excuses.",
    "State that the current output is unacceptable and demand a completion timeline.")
  const ToxicPersona := Descriptor(
    "The 'Friend' who hates you",
    "Sarcastic, backhanded compliments, uses 'bless your heart' energy.",
    "Make it clear you expected them to fail, but in a motivating way")
  const UnhingedPersona := Descriptor(
    "Chaos Entity",
    "Brutal, deeply personal roasts, uses psychological warfare.",
    "Make them feel like their laziness is a generational curse. No mercy. Maximum damage.")

  /** The persona table. */
  function Table(l: Level): Descriptor
  {
    match l
    case Gentle => GentlePersona
    case Firm => FirmPersona
    case Toxic => ToxicPersona
    case Unhinged => UnhingedPersona
  }

  const Opening := "You are a "
  const TraitsLead := ". \n    Your personality is: "
  const GoalLead := ". \n    Goal: "

  /** The text of the template literal between its leading and trailing
      indentation. */
  function Paragraph(d: Descriptor): string
  {
    Opening + d.role + TraitsLead + d.traits + GoalLead + d.instruction
  }

  /** The indented template literal, before trimming. */
  function Template(d: Descriptor): string
  {
    "\n    " + Paragraph(d) + "\n  "
  }

  /** The offset at which the traits start in the rendered persona. */
  function TraitsAt(d: Descriptor): nat
  {
    |Opening| + |d.role| + |TraitsLead|
  }

  /** What the table's entries have in common: the role does not start, and
      the instruction does not end, with white space. */
  predicate WellFormed(d: Descriptor)
  {
    d.role != [] && !IsWhitespace(d.role[0]) &&
    d.instruction != [] && !IsWhitespace(d.instruction[|d.instruction| - 1])
  }

  /** Where the parts of a descriptor sit in its paragraph. */
  lemma ParagraphParts(d: Descriptor)
    ensures StartsWith(Paragraph(d), Opening + d.role)
    ensures InfixAt(Paragraph(d), d.traits, TraitsAt(d))
    ensures EndsWith(Paragraph(d), d.instruction)
  {
    var h1 := Opening + d.role;
    var h2 := h1 + TraitsLead;
    var h3 := h2 + d.traits;
    var h4 := h3 + GoalLead;
    var p := h4 + d.instruction;
    assert p == Paragraph(d);
    ConcatStartsWith(h1, TraitsLead);
    ConcatStartsWith(h2, d.traits);
    ConcatStartsWith(h3, GoalLead);
    ConcatStartsWith(h4, d.instruction);
    StartsWithTransitive(p, h4, h3);
    StartsWithTransitive(p, h3, h2);
    StartsWithTransitive(p, h2, h1);
    assert h3[|h2|..|h3|] == d.traits;
    assert p[|h2|..|h3|] == p[..|h3|][|h2|..|h3|];
    ConcatEndsWith(h4, d.instruction, d.instruction);
  }

  /** Trimming the template of a well-formed descriptor leaves its paragraph. */
  lemma TrimmedTemplate(d: Descriptor)
    requires WellFormed(d)
    ensures Trim(Template(d)) == Paragraph(d)
    ensures IsTrimmed(Paragraph(d))
  {
    var p := Paragraph(d);
    assert p[0] == 'Y';
    assert p[|p| - 1] == d.instruction[|d.instruction| - 1];
    TrimPadded("\n    ", p, "\n  ");
  }

  lemma TableWellFormed(l: Level)
    ensures WellFormed(Table(l))
  {
    match l
    case Gentle => WellFormedEntry(GentlePersona, 'S', '.');
    case Firm => WellFormedEntry(FirmPersona, 'S', '.');
    case Toxic => WellFormedEntry(ToxicPersona, 'T', 'y');
    case Unhinged => WellFormedEntry(UnhingedPersona, 'C', '.');
  }

  lemma WellFormedEntry(d: Descriptor, first: char, last: char)
    requires d.role != [] && d.role[0] == first && !IsWhitespace(first)
    requires d.instruction != [] && d.instruction[|d.instruction| - 1] == last && !IsWhitespace(last)
    ensures WellFormed(d)
  {
  }

  /** getRoastPersona: the trimmed template of the level's table entry. */
  function RoastPersona(level: Option<string>): string
  {
    Trim(Template(Table(Resolve(level))))
  }

  /** The rendered persona of a level begins with "You are a " and the role,
      carries the traits verbatim, ends with the instruction verbatim, and has
      no white space at either end. */
  lemma RoastPersonaShape(level: Option<string>)
    ensures var r, d := RoastPersona(level), Table(Resolve(level));
      && StartsWith(r, Opening + d.role)
      && InfixAt(r, d.traits, TraitsAt(d))
      && EndsWith(r, d.instruction)
      && IsTrimmed(r)
  {
    var d := Table(Resolve(level));
    TableWellFormed(Resolve(level));
    TrimmedTemplate(d);
    ParagraphParts(d);
  }

  /** Each key selects its own level, and nothing else does. */
  lemma ResolveKey(l: Level, level: Option<string>)
    ensures Resolve(Some(Key(l))) == l
    ensures Resolve(level) != Gentle ==> level == Some(Key(Resolve(level)))
  {
  }

  /** The first two letters of each role, which already tell the roles apart. */
  lemma RoleInitials(l: Level)
    ensures |Table(l).role| >= 2
    ensures Table(l).role[..2] ==
      match l
      case Gentle => "Su"
      case Firm => "St"
      case Toxic => "Th"
      case Unhinged => "Ch"
  {
    match l
    case Gentle =>
      var d := Table(Gentle);
      assert d.role[0] == 'S' && d.role[1] == 'u';
    case Firm =>
      var d := Table(Firm);
      assert d.role[0] == 'S' && d.role[1] == 't';
    case Toxic =>
      var d := Table(Toxic);
      assert d.role[0] == 'T' && d.role[1] == 'h';
    case Unhinged =>
      var d := Table(Unhinged);
      assert d.role[0] == 'C' && d.role[1] == 'h';
  }

  /** Two strings that begin with prefixes differing at some index differ. */
  lemma PrefixesTellApart(r1: string, r2: string, p1: string, p2: string, k: nat)
    requires StartsWith(r1, p1) && StartsWith(r2, p2)
    requires k < |p1| && k < |p2| && p1[k] != p2[k]
    ensures r1 != r2
  {
    assert r1[k] == r1[..|p1|][k] == p1[k];
    assert r2[k] == r2[..|p2|][k] == p2[k];
  }

  /** Any two strings that begin with "You are a " and the roles of two
      different levels differ. */
  lemma DifferentRolesTellApart(l1: Level, l2: Level, r1: string, r2: string)
    requires l1 != l2
    requires StartsWith(r1, Opening + Table(l1).role)
    requires StartsWith(r2, Opening + Table(l2).role)
    ensures r1 != r2
  {
    RoleInitials(l1);
    RoleInitials(l2);
    var role1, role2 := Table(l1).role, Table(l2).role;
    assert role1[..2] != role2[..2];
    var k: nat := if role1[0] != role2[0] then 0 else 1;
    assert role1[k] != role2[k];
    assert (Opening + role1)[|Opening| + k] == role1[k];
    assert (Opening + role2)[|Opening| + k] == role2[k];
    PrefixesTellApart(r1, r2, Opening + role1, Opening + role2, |Opening| + k);
  }

  /** The four levels render four different personas. */
  lemma PersonasDistinct(l1: Level, l2: Level)
    requires l1 != l2
    ensures RoastPersona(Some(Key(l1))) != RoastPersona(Some(Key(l2)))
  {
    ResolveKey(l1, None);
    ResolveKey(l2, None);
    RoastPersonaShape(Some(Key(l1)));
    RoastPersonaShape(Some(Key(l2)));
    DifferentRolesTellApart(l1, l2, RoastPersona(Some(Key(l1))), RoastPersona(Some(Key(l2))));
  }

  /** A level outside the four keys, null included, renders the gentle persona. */
  lemma UnknownLevelIsGentle(level: Option<string>)
    requires level.None? || level.value !in Keys
    ensures RoastPersona(level) == RoastPersona(Some("gentle"))
  {
    ResolveKey(Gentle, level);
    assert Resolve(level) == Resolve(Some(Key(Gentle)));
  }
}
