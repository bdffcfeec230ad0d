/** The user-interface helpers of app/utilis/helper.ts that are pure once
    the clock is an input: the greeting for the hour of the day and the
    colour classes of a task category. */
module Helper {

  /** An hour of the day, as Date.prototype.getHours returns it. */
  type Hour = h: int | 0 <= h < 24

  const Morning := "Good Morning"
  const Afternoon := "Good Afternoon"
  const Evening := "Good Evening"

  /** getGreeting, for the hour the clock shows. */
  function Greeting(hour: Hour): (g: string)
    ensures g in {Morning, Afternoon, Evening}
  {
    if hour < 12 then Morning
    else if hour < 18 then Afternoon
    else Evening
  }

  /** The position of a greeting in the day; other strings come last. */
  function PartOfDay(g: string): nat
  {
    if g == Morning then 0 else if g == Afternoon then 1 else if g == Evening then 2 else 3
  }

  /** Each greeting is given exactly on its own span of hours. */
  lemma GreetingThresholds(hour: Hour)
    ensures Greeting(hour) == Morning <==> hour < 12
    ensures Greeting(hour) == Afternoon <==> 12 <= hour < 18
    ensures Greeting(hour) == Evening <==> 18 <= hour
  {
  }

  /** Over the day the greeting moves from morning to afternoon to evening
      and never back. */
  lemma GreetingMonotone(h1: Hour, h2: Hour)
    requires h1 <= h2
    ensures PartOfDay(Greeting(h1)) <= PartOfDay(Greeting(h2)) < 3
  {
  }

  /** The classes of a category with its own colour: text and background
      shades for the light theme and for the dark one. */
  function Tint(colour: string): string
  {
    "text-" + colour + "-600 bg-" + colour + "-50 dark:bg-" + colour + "-500/10 dark:text-" + colour + "-400"
  }

  const WorkClass := Tint("sky")
  const PersonalClass := Tint("purple")
  const HealthClass := Tint("emerald")
  const FinanceClass := Tint("rose")
  const DefaultClass := "text-slate-600 bg-slate-50 dark:bg-neutral-800"

  const Categories: set<string> := {"work", "personal", "health", "finance"}

  /** getCategoryClass. */
  function CategoryClass(category: string): (c: string)
    ensures c in {WorkClass, PersonalClass, HealthClass, FinanceClass, DefaultClass}
    ensures category !in Categories ==> c == DefaultClass
  {
    if category == "work" then WorkClass
    else if category == "personal" then PersonalClass
    else if category == "health" then HealthClass
    else if category == "finance" then FinanceClass
    else DefaultClass
  }

  /** The seventh character of a class string: the second letter of its
      colour, which already tells the five apart. */
  function Mark(c: string): char
  {
    if |c| > 6 then c[6] else ' '
  }

  lemma TintMark(colour: string)
    requires |colour| >= 2
    ensures Mark(Tint(colour)) == colour[1]
  {
    var rest := "-600 bg-" + colour + "-50 dark:bg-" + colour + "-500/10 dark:text-" + colour + "-400";
    assert Tint(colour) == "text-" + colour + rest;
  }

  lemma ClassMarks()
    ensures Mark(WorkClass) == 'k' && Mark(PersonalClass) == 'u' && Mark(HealthClass) == 'm'
    ensures Mark(FinanceClass) == 'o' && Mark(DefaultClass) == 'l'
  {
    TintMark("sky");
    TintMark("purple");
    TintMark("emerald");
    TintMark("rose");
  }

  /** The four known categories get four different classes. */
  lemma CategoryClassesDistinct(a: string, b: string)
    requires a in Categories && b in Categories && a != b
    ensures CategoryClass(a) != CategoryClass(b)
  {
    ClassMarks();
    assert Mark(CategoryClass(a)) != Mark(CategoryClass(b));
  }

  /** The default class is given exactly to the categories outside the four,
      the empty string included. */
  lemma DefaultCategory(category: string)
    ensures CategoryClass(category) == DefaultClass <==> category !in Categories
  {
    ClassMarks();
    assert category in Categories ==> Mark(CategoryClass(category)) != Mark(DefaultClass);
  }
}
