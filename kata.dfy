/** The Kata record: a solved exercise as the exporter carries it around. */
module Katas {
  /** A kata's name, difficulty level (such as "6 kyu"), language and solution code. */
  datatype Kata = Kata(name: string, level: string, language: string, code: string)
}
