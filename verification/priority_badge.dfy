/** The badge that shows a task's priority: a label, two style classes and an icon per level. */
module PriorityBadge {
  import opened Wrappers

  /** The `priority` prop: an integer, or anything else (a string, null, a fraction). */
  datatype PriorityValue = IntValue(n: int) | OtherValue

  /** `label` is a Dafny keyword, so the label is called `title` here. */
  datatype BadgeConfig = BadgeConfig(title: string, color: string, textColor: string, icon: string)

  /** The five levels, highest first. */
  const Levels: seq<int> := [5, 4, 3, 2, 1]

  /** The configuration used for anything that is not one of the five levels. */
  const Fallback: BadgeConfig := BadgeConfig("Medium", "bg-gray-400", "text-white", "\U{2753}")

  /** `getPriorityConfig(priority)`: a strict `switch` over 5..1 with a default. */
  function Config(p: PriorityValue): (c: BadgeConfig)
    ensures c.textColor == "text-white"
    ensures (p.IntValue? && 1 <= p.n <= 5) <==> c != Fallback
  {
    match p
    case IntValue(5) => BadgeConfig("Critical", "bg-red-500", "text-white", "\U{1F534}")
    case IntValue(4) => BadgeConfig("High", "bg-orange-500", "text-white", "\U{1F7E0}")
    case IntValue(3) => BadgeConfig("Medium", "bg-yellow-500", "text-white", "\U{1F7E1}")
    case IntValue(2) => BadgeConfig("Low", "bg-green-500", "text-white", "\U{1F7E2}")
    case IntValue(1) => BadgeConfig("Minimal", "bg-gray-500", "text-white", "\U{26AA}")
    case _ => Fallback
  }

  /** Reads the level back from a badge's background colour; None for the fallback badge. */
  function LevelOfColor(color: string): (r: Option<int>)
    ensures r.Some? ==> r.value in Levels
  {
    if color == "bg-red-500" then Some(5)
    else if color == "bg-orange-500" then Some(4)
    else if color == "bg-yellow-500" then Some(3)
    else if color == "bg-green-500" then Some(2)
    else if color == "bg-gray-500" then Some(1)
    else None
  }

  /** The colour identifies the level: each level's badge reads back as that level, the fallback as none. */
  lemma ColorRoundTrip(p: PriorityValue)
    ensures LevelOfColor(Config(p).color) == if p.IntValue? && 1 <= p.n <= 5 then Some(p.n) else None
  {
  }

  /** Different levels get different badges, and only level 3 shares its title with the fallback. */
  lemma BadgesDistinct(a: int, b: int)
    requires 1 <= a <= 5 && 1 <= b <= 5 && a != b
    ensures Config(IntValue(a)).title != Config(IntValue(b)).title
    ensures Config(IntValue(a)).color != Config(IntValue(b)).color
    ensures Config(IntValue(a)).icon != Config(IntValue(b)).icon
    ensures Config(IntValue(a)).title == Fallback.title <==> a == 3
  {
    ColorRoundTrip(IntValue(a));
    ColorRoundTrip(IntValue(b));
  }

  /**
   * The comparison is strict: the text "5", null and 0 are not levels. The fallback badge reads
   * "Medium" like level 3 but has its own colour.
   */
  lemma TextIsNotALevel()
    ensures Config(OtherValue) == Fallback
    ensures Fallback.color != Config(IntValue(3)).color
    ensures Config(IntValue(0)) == Fallback && Config(IntValue(6)) == Fallback
  {
  }
}
