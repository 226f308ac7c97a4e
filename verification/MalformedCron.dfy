/** What a malformed cron expression does to the jobs registered after it. */
module MalformedCron {
  import opened Wrappers
  import opened Scheduler
  import Cron
  import CronRules
  import Tokens

  /** Anything but five words is malformed, whatever the minute. */
  lemma FiveWordsOrNone(expression: string, when: Cron.When)
    requires |Tokens.Words(expression)| != 5
    ensures Cron.CronMatches(expression, when) == None
  {
  }

  const STARS := "* * * * *"

  lemma StarsSplit(stars: string)
    requires stars == STARS
    ensures Tokens.Words(stars) == ["*", "*", "*", "*", "*"]
  {
    var words := ["*", "*", "*", "*", "*"];
    assert Tokens.JoinWords(words) == stars;
    Tokens.WordsSurvive(words);
  }

  /** Five stars are due in every minute. */
  lemma FiveStars(expression: string, when: Cron.When)
    requires Tokens.Words(expression) == ["*", "*", "*", "*", "*"] && CronRules.Real(when)
    ensures Cron.CronMatches(expression, when) == Some(true)
  {
    var any := Cron.ANY;
    var s := Cron.Schedule(any, any, any, any, any);
    CronRules.StarHits(s.minute, when.minute, 0, 59);
    CronRules.StarHits(s.hour, when.hour, 0, 23);
    CronRules.StarsHit(s, when);
    assert Cron.ShowField(any) == "*";
    CronRules.CodeSays(expression, s, when);
  }

  /** A job that is due in every minute never fires when it is registered after one with an empty expression. */
  lemma EmptyExpressionBlocks(instants: seq<real>, calendar: int -> Cron.When, ends: Oracle, first: Job, second: Job,
                              m: int)
    requires Ordered(instants) && first != second && CronRules.Real(calendar(m))
    ensures var registry := [Registration(first, ""), Registration(second, STARS)];
            Due(registry[1], m, CronMatcher(calendar)) &&
            Fired(Rounds(instants, registry, CronMatcher(calendar), ends).log, second, m) == 0
  {
    var registry := [Registration(first, ""), Registration(second, STARS)];
    StarsSplit(STARS);
    FiveStars(STARS, calendar(m));
    FiveWordsOrNone("", calendar(m));
    assert CronMatcher(calendar)(registry[0].cron, m) == None;
    FiresExactlyOnce(instants, registry, CronMatcher(calendar), ends, 1, m);
  }
}
