/** The default rule entity (dlogic.py:10-23): "if `pre` holds and `jus` is consistent, conclude `cons`". */
module Rules {
  import opened Symbols

  /** The source defines no equality on rules; the model never compares rules, it tracks their
      positions in the rule list instead. */
  datatype DefaultRule = DefaultRule(pre: Formula, jus: Formula, cons: Formula)

  /** `DefaultRule.__str__`: `pre : jus / cons`. */
  function RenderRule(d: DefaultRule): string
  {
    Render(d.pre) + " : " + Render(d.jus) + " / " + Render(d.cons)
  }
}
