/**
 * The fallback data sets: `mockProjects` of lib/data/projects.ts and
 * `mockRepositories` / `mockUserEvents` of lib/github-enhanced.ts. The event
 * dates are derived in UTC.
 */
module Mocks {
  import opened Wrappers
  import opened Types

  function MockProject(id: string, name: string, description: string, technologies: seq<string>,
                       slug: string, stars: int, lastUpdated: string, featured: bool,
                       certificates: seq<string>): Project
  {
    Project(id, name, description, technologies,
            "https://github.com/hasrinataarya/" + slug,
            Some("https://" + slug + "-demo.vercel.app"),
            stars, lastUpdated, featured, certificates)
  }

  const MockProjects: seq<Project> :=
    [ MockProject("proj-001", "AI Vision Assistant",
        "A computer vision application that helps visually impaired users navigate their environment using TensorFlow-powered object detection and audio feedback.",
        ["TensorFlow", "Python", "React Native", "Firebase"], "ai-vision-assistant", 127, "2 weeks ago", true, ["cert-002"]),
      MockProject("proj-002", "E-Commerce Platform",
        "A full-featured e-commerce solution with product management, shopping cart, payment processing, and admin dashboard built with React and Node.js.",
        ["React", "Redux", "Node.js", "Express", "MongoDB", "Stripe"], "ecommerce-platform", 89, "1 month ago", true, ["cert-001", "cert-004"]),
      MockProject("proj-003", "Cloud Task Manager",
        "A serverless task management application built on AWS Lambda, DynamoDB, and API Gateway with a React frontend for creating, tracking, and completing tasks.",
        ["AWS Lambda", "DynamoDB", "API Gateway", "React", "Tailwind CSS"], "cloud-task-manager", 72, "3 months ago", true, ["cert-003"]),
      MockProject("proj-004", "Data Visualization Dashboard",
        "An interactive dashboard for visualizing complex datasets using D3.js and React, with data processing powered by Python and pandas.",
        ["React", "D3.js", "Python", "pandas", "Flask"], "data-viz-dashboard", 64, "2 months ago", false, ["cert-005"]),
      MockProject("proj-005", "Flutter Weather App",
        "A beautiful weather application built with Flutter that displays current conditions and forecasts for multiple locations with interactive animations.",
        ["Flutter", "Dart", "OpenWeather API", "Firebase"], "flutter-weather-app", 51, "4 months ago", false, ["cert-006"]),
      MockProject("proj-006", "Docker Microservices Demo",
        "A demonstration of microservices architecture using Docker containers, Docker Compose, and a CI/CD pipeline for automated testing and deployment.",
        ["Docker", "Node.js", "Express", "GitHub Actions"], "docker-microservices", 45, "5 months ago", false, ["cert-007"]),
      MockProject("proj-007", "Algorithm Visualizer",
        "An educational tool for visualizing various algorithms and data structures, helping users understand complex computer science concepts interactively.",
        ["JavaScript", "HTML Canvas", "CSS"], "algorithm-visualizer", 38, "6 months ago", false, ["cert-008"]) ]

  const MockRepositories: seq<Repo> :=
    [ Repo(1, "portfolio-website", "Urdemonlord/portfolio-website",
        "Personal portfolio website built with Next.js and TypeScript",
        "https://github.com/Urdemonlord/portfolio-website", "TypeScript",
        ["nextjs", "typescript", "portfolio", "react"], 15, "", false, false, 1717237800000, "1/6/2024"),
      Repo(2, "ai-chatbot", "Urdemonlord/ai-chatbot",
        "AI-powered chatbot using OpenAI API and React",
        "https://github.com/Urdemonlord/ai-chatbot", "JavaScript",
        ["ai", "chatbot", "openai", "react"], 8, "", false, false, 1716906000000, "28/5/2024"),
      Repo(3, "data-analytics-dashboard", "Urdemonlord/data-analytics-dashboard",
        "Data visualization dashboard with Chart.js and D3.js",
        "https://github.com/Urdemonlord/data-analytics-dashboard", "Python",
        ["data-visualization", "chartjs", "d3js", "analytics"], 12, "", false, false, 1716628500000, "25/5/2024") ]

  const MockUserEvents: seq<Event> :=
    [ Event("PushEvent", Some("Urdemonlord/portfolio-website"), "2024-06-01T10:30:00Z",
        19875, 2024 * 12 + 5, "1/6/2024", Some([Commit("Add authentication system with JWT", "")])),
      Event("CreateEvent", Some("Urdemonlord/ai-chatbot"), "2024-05-28T14:20:00Z",
        19871, 2024 * 12 + 4, "28/5/2024", None),
      Event("IssuesEvent", Some("Urdemonlord/data-analytics-dashboard"), "2024-05-25T09:15:00Z",
        19868, 2024 * 12 + 4, "25/5/2024", None) ]
}
