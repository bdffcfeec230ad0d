/** Prompt building (server/utilis/roaster.ts): the persona of the user's roast
    level, and a "material" block holding the user's identity and one line per
    overdue task. */
module Roaster {
  import opened JsText
  import opened Schema
  import Persona

  /** One element of a target's task list: the title of a task and the name of the
      container it belongs to. */
  datatype OverdueTask = OverdueTask(title: string, containerName: string)

  /** The request sent to the model. */
  datatype RoastPrompt = RoastPrompt(persona: string, material: string)

  /** The line `- [container] title` of one task. */
  function TaskLine(t: OverdueTask): string
  {
    "- [" + t.containerName + "] " + t.title
  }

  /** `tasks.map(...)`: one line per task, in input order. */
  function TaskLines(tasks: seq<OverdueTask>): (lines: seq<string>)
    ensures |lines| == |tasks|
    ensures forall i :: 0 <= i < |tasks| ==> lines[i] == TaskLine(tasks[i])
  {
    seq(|tasks|, i requires 0 <= i < |tasks| => TaskLine(tasks[i]))
  }

  /** `.join("\n")` of the task lines. */
  function TaskList(tasks: seq<OverdueTask>): (r: string)
    ensures tasks == [] ==> r == ""
  {
    Join(TaskLines(tasks), "\n")
  }

  const Heading := "TARGET IDENTITY:"
  const Ending := "make it personal."
  const IdentityHeading := Heading + "\n    "
  const LineBreak := "\n    "
  const SectionBreak := "\n\n    "
  const Closing :=
    "\n\n    Based on the persona instructions, roast this user for their procrastination. " +
    "\n    Reference their job title and bio to "
  const Instruction := Closing + Ending

  function NameLine(u: User): string { "- Name: " + u.name }
  function ProfessionLine(u: User): string { "- Profession: " + Interpolate(u.jobTitle) }
  function BioLine(u: User): string { "- Bio: \"" + Interpolate(u.bio) + "\"" }
  const TasksHeading := "OVERDUE TASKS:\n    "
  function TasksSection(tasks: seq<OverdueTask>): string { TasksHeading + TaskList(tasks) }

  /** The pieces of the material template literal, between its leading and
      trailing indentation. */
  function MaterialPieces(u: User, tasks: seq<OverdueTask>): seq<string>
  {
    [IdentityHeading, NameLine(u), LineBreak, ProfessionLine(u), LineBreak,
     BioLine(u), SectionBreak, TasksSection(tasks), Instruction]
  }

  function MaterialText(u: User, tasks: seq<OverdueTask>): string
  {
    Join(MaterialPieces(u, tasks), "")
  }

  /** The indented template literal, before trimming. */
  function MaterialTemplate(u: User, tasks: seq<OverdueTask>): string
  {
    "\n    " + MaterialText(u, tasks) + "\n  "
  }

  /** The material block: the trimmed template literal. */
  function Material(u: User, tasks: seq<OverdueTask>): string
  {
    Trim(MaterialTemplate(u, tasks))
  }

  lemma MaterialTextStarts(u: User, tasks: seq<OverdueTask>)
    ensures StartsWith(MaterialText(u, tasks), Heading)
  {
    JoinStartsWithFirst(MaterialPieces(u, tasks), "");
    ConcatStartsWith(Heading, "\n    ");
    StartsWithTransitive(MaterialText(u, tasks), IdentityHeading, Heading);
  }

  lemma MaterialTextFinishes(u: User, tasks: seq<OverdueTask>)
    ensures EndsWith(MaterialText(u, tasks), Ending)
  {
    JoinEndsWithLast(MaterialPieces(u, tasks), "");
    ConcatEndsWith(Closing, Ending, Ending);
    EndsWithTransitive(MaterialText(u, tasks), Instruction, Ending);
  }

  /** The untrimmed text opens with the identity heading and closes with the
      instruction, so neither end is white space. */
  lemma MaterialTextEnds(u: User, tasks: seq<OverdueTask>)
    ensures var m := MaterialText(u, tasks);
      m != [] && IsTrimmed(m) && StartsWith(m, Heading) && EndsWith(m, Ending)
  {
    var m := MaterialText(u, tasks);
    MaterialTextStarts(u, tasks);
    MaterialTextFinishes(u, tasks);
    assert m[0] == m[..|Heading|][0] == 'T';
    assert m[|m| - 1] == m[|m| - |Ending|..][|Ending| - 1] == '.';
  }

  /** Trimming takes off exactly the template's indentation. */
  lemma MaterialIsText(u: User, tasks: seq<OverdueTask>)
    ensures var m := Material(u, tasks);
      m == MaterialText(u, tasks) && IsTrimmed(m) && StartsWith(m, Heading) && EndsWith(m, Ending)
  {
    MaterialTextEnds(u, tasks);
    TrimPadded("\n    ", MaterialText(u, tasks), "\n  ");
  }

  /** The material block is trimmed, opens with "TARGET IDENTITY:", closes
      with "make it personal.", and carries the name line, the profession
      line, the quoted bio line and the whole task list under its heading. */
  lemma MaterialShape(u: User, tasks: seq<OverdueTask>)
    ensures var m := Material(u, tasks);
      && IsTrimmed(m)
      && StartsWith(m, Heading)
      && EndsWith(m, Ending)
      && Contains(m, NameLine(u))
      && Contains(m, ProfessionLine(u))
      && Contains(m, BioLine(u))
      && Contains(m, TasksSection(tasks))
  {
    MaterialIsText(u, tasks);
    var pieces := MaterialPieces(u, tasks);
    JoinContainsPart(pieces, "", 1);
    JoinContainsPart(pieces, "", 3);
    JoinContainsPart(pieces, "", 5);
    JoinContainsPart(pieces, "", 7);
  }

  /** A null job title is written out as "null" in the material. */
  lemma NullJobTitleRendersNull(u: User, tasks: seq<OverdueTask>)
    requires u.jobTitle.None?
    ensures Contains(Material(u, tasks), "- Profession: null")
  {
    MaterialShape(u, tasks);
    assert ProfessionLine(u) == "- Profession: null";
  }

  /** A null bio is written out as "null", between its quotes. */
  lemma NullBioRendersNull(u: User, tasks: seq<OverdueTask>)
    requires u.bio.None?
    ensures Contains(Material(u, tasks), "- Bio: \"null\"")
  {
    MaterialShape(u, tasks);
    assert BioLine(u) == "- Bio: \"null\"";
  }

  /** Every overdue task's line appears in the material. */
  lemma MaterialListsEveryTask(u: User, tasks: seq<OverdueTask>, i: int)
    requires 0 <= i < |tasks|
    ensures Contains(Material(u, tasks), TaskLine(tasks[i]))
  {
    MaterialShape(u, tasks);
    var section := TasksSection(tasks);
    JoinContainsPart(TaskLines(tasks), "\n", i);
    InfixOfConcat(TasksHeading, TaskList(tasks), "");
    assert TasksHeading + TaskList(tasks) + "" == section;
    ContainsTransitive(section, TaskList(tasks), TaskLine(tasks[i]));
    ContainsTransitive(Material(u, tasks), section, TaskLine(tasks[i]));
  }

  predicate SingleLine(t: OverdueTask)
  {
    '\n' !in t.title && '\n' !in t.containerName
  }

  lemma TaskLineIsSingleLine(t: OverdueTask)
    requires SingleLine(t)
    ensures '\n' !in TaskLine(t)
  {
    var line := TaskLine(t);
    forall k | 0 <= k < |line|
      ensures line[k] != '\n'
    {
      if k < 3 {
      } else if k < 3 + |t.containerName| {
        assert line[k] == t.containerName[k - 3];
      } else if k < 5 + |t.containerName| {
      } else {
        assert line[k] == t.title[k - 5 - |t.containerName|];
      }
    }
  }

  /** The task list holds exactly one line per task, in input order: reading
      it back line by line gives the task lines, provided no title or
      container name itself spans several lines. */
  lemma TaskListLines(tasks: seq<OverdueTask>)
    requires tasks != []
    requires forall i :: 0 <= i < |tasks| ==> SingleLine(tasks[i])
    ensures Split(TaskList(tasks), '\n') == TaskLines(tasks)
  {
    forall k | 0 <= k < |tasks|
      ensures '\n' !in TaskLines(tasks)[k]
    {
      TaskLineIsSingleLine(tasks[k]);
    }
    SplitJoin(TaskLines(tasks), '\n');
  }

  /** getRoastPrompt. */
  function BuildRoastPrompt(u: User, tasks: seq<OverdueTask>): RoastPrompt
  {
    RoastPrompt(Persona.RoastPersona(u.roastLevel), Material(u, tasks))
  }

  /** The prompt's persona is the one of the user's roast level, and its
      material is a trimmed block that carries the user's name and every
      task's line. */
  lemma RoastPromptSpec(u: User, tasks: seq<OverdueTask>)
    ensures var p := BuildRoastPrompt(u, tasks);
      && p.persona == Persona.RoastPersona(u.roastLevel)
      && IsTrimmed(p.material)
      && Contains(p.material, NameLine(u))
      && forall i :: 0 <= i < |tasks| ==> Contains(p.material, TaskLine(tasks[i]))
  {
    MaterialShape(u, tasks);
    forall i | 0 <= i < |tasks|
      ensures Contains(Material(u, tasks), TaskLine(tasks[i]))
    {
      MaterialListsEveryTask(u, tasks, i);
    }
  }
}
