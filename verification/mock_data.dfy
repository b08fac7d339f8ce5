/** The fixed records of frontend/src/mocks/data.ts that the modelled pages read. */
module MockData {
  import opened Wrappers
  import opened FrontTypes

  const MockInstructors: seq<Instructor> := [
    Instructor("inst-1", "김민수", Some("minsu.kim@example.com"), Some("010-1234-5678"), Some("JavaScript/React"), true),
    Instructor("inst-2", "이서연", Some("seoyeon.lee@example.com"), Some("010-2345-6789"), Some("Python/Django"), true),
    Instructor("inst-3", "박준혁", Some("junhyuk.park@example.com"), Some("010-3456-7890"), Some("Java/Spring"), true),
    Instructor("inst-4", "최유진", Some("yujin.choi@example.com"), Some("010-4567-8901"), Some("DevOps/Cloud"), true),
    Instructor("inst-5", "정하늘", Some("haneul.jung@example.com"), Some("010-5678-9012"), Some("Data Science"), false)
  ]

  const MockCourses: seq<Course> := [
    Course("course-1", "프론트엔드 부트캠프 5기", Some("진행중")),
    Course("course-2", "백엔드 심화 과정 3기", Some("예정")),
    Course("course-3", "데이터 분석 입문 2기", Some("완료"))
  ]

  const MockCourseDates: seq<CourseDate> := [
    CourseDate("cd-1", "course-1", "2026-02-17", 1),
    CourseDate("cd-2", "course-1", "2026-02-18", 2),
    CourseDate("cd-3", "course-1", "2026-02-19", 3),
    CourseDate("cd-4", "course-2", "2026-02-18", 1),
    CourseDate("cd-5", "course-2", "2026-02-19", 2),
    CourseDate("cd-6", "course-2", "2026-02-20", 3),
    CourseDate("cd-7", "course-3", "2026-01-13", 1),
    CourseDate("cd-8", "course-3", "2026-01-14", 2)
  ]

  const MockAssignments: seq<Assignment> := [
    Assignment("asgn-1", "cd-1", "inst-1", "2026-02-17", Some("A반")),
    Assignment("asgn-2", "cd-1", "inst-2", "2026-02-17", Some("B반")),
    Assignment("asgn-3", "cd-2", "inst-1", "2026-02-18", Some("A반")),
    Assignment("asgn-4", "cd-2", "inst-3", "2026-02-18", Some("B반")),
    Assignment("asgn-5", "cd-3", "inst-2", "2026-02-19", Some("A반")),
    Assignment("asgn-6", "cd-3", "inst-4", "2026-02-19", Some("B반")),
    Assignment("asgn-7", "cd-4", "inst-4", "2026-02-18", Some("A반")),
    Assignment("asgn-8", "cd-4", "inst-1", "2026-02-18", Some("B반"))
  ]
}
